/** The sbrk heap as a value: the address-ordered list of its blocks, and what each allocator operation does to it. */
module Heap {
  import opened Basics

  const META: int := 48            // sizeof(MallocMetadata)
  const MMAP_SIZE: int := 131072
  const SPLIT: int := 128 + META   // least remainder worth a block of its own

  /** A block: the address of its header, the size of its payload, and whether it is free. */
  datatype Blk = Blk(addr: int, size: int, free: bool) {
    function Payload(): int { addr + META }
    function End(): int { addr + META + size }
  }

  /** The heap between `base` and the program break `brk`. `orphans`
    * counts headers whose payload could not be obtained. */
  datatype State = State(blocks: seq<Blk>, brk: int, orphans: nat)

  /** No two of the blocks overlap. */
  ghost predicate PairwiseApart(h: seq<Blk>) {
    forall i, j :: 0 <= i < |h| && 0 <= j < |h| && i != j ==> h[i].End() <= h[j].addr || h[j].End() <= h[i].addr
  }

  // ----- layout

  ghost predicate BlockOK(b: Blk, base: int, brk: int) {
    base <= b.addr && b.addr % 8 == 0 && 0 < b.size < MMAP_SIZE && b.size % 8 == 0 && b.End() <= brk
  }

  ghost predicate Ordered(h: seq<Blk>) {
    forall i, j :: 0 <= i < j < |h| ==> h[i].End() <= h[j].addr
  }

  ghost predicate BlocksOK(h: seq<Blk>, base: int, brk: int) {
    && (forall i {:trigger BlockOK(h[i], base, brk)} :: 0 <= i < |h| ==> BlockOK(h[i], base, brk))
    && Ordered(h)
  }

  /** Headers and payloads of all blocks. */
  ghost function Extent(h: seq<Blk>): int {
    if h == [] then 0 else META + h[0].size + Extent(h[1..])
  }

  ghost predicate Layout(s: State, base: int) {
    && 0 < base && base % 8 == 0 && s.brk % 8 == 0
    && BlocksOK(s.blocks, base, s.brk)
    && base + Extent(s.blocks) + META * s.orphans == s.brk
  }

  /** Every block starts where its predecessor ends and the last one ends at the break. */
  ghost predicate Tiles(h: seq<Blk>, base: int, brk: int) {
    && (h == [] ==> base == brk)
    && (h != [] ==> h[0].addr == base && h[|h| - 1].End() == brk)
    && (forall i :: 0 <= i < |h| - 1 ==> h[i + 1].addr == h[i].End())
  }

  /** Block `i` and its right neighbour are not both free. */
  predicate Apart(h: seq<Blk>, i: int) {
    0 <= i < |h| - 1 ==> !(h[i].free && h[i + 1].free)
  }

  ghost predicate NoAdjacentFree(h: seq<Blk>) {
    forall i :: Apart(h, i)
  }

  // ----- operations on the block list

  /** Hand out block `i` for `n` bytes, cutting off the rest as a free block when it is large enough. */
  function Carve(h: seq<Blk>, i: nat, n: int): seq<Blk>
    requires i < |h|
  {
    if h[i].size - n < SPLIT then h[i := h[i].(free := false)]
    else h[..i] + [Blk(h[i].addr, n, false), Blk(h[i].addr + META + n, h[i].size - n - META, true)] + h[i + 1..]
  }

  function Release(h: seq<Blk>, i: nat): seq<Blk>
    requires i < |h|
  {
    h[i := h[i].(free := true)]
  }

  function Merge(h: seq<Blk>, i: nat): seq<Blk>
    requires i + 1 < |h|
  {
    h[..i] + [Blk(h[i].addr, h[i].size + META + h[i + 1].size, true)] + h[i + 2..]
  }

  predicate Mergeable(h: seq<Blk>, i: int) {
    !Apart(h, i)
  }

  /** Merge block `i` with its right neighbour when both are free. */
  function Unite(h: seq<Blk>, i: int): seq<Blk> {
    if Mergeable(h, i) then Merge(h, i) else h
  }

  function Free(h: seq<Blk>, i: nat): seq<Blk>
    requires i < |h|
  {
    Unite(Unite(Release(h, i), i), i - 1)
  }

  function LeftSize(h: seq<Blk>, i: nat): int
    requires i < |h|
  {
    if 0 < i && h[i - 1].free then h[i - 1].size + META else 0
  }

  function RightSize(h: seq<Blk>, i: nat): int
    requires i < |h|
  {
    if i + 1 < |h| && h[i + 1].free then h[i + 1].size + META else 0
  }

  /** Size of the free block that results from releasing block `i`. */
  function MergedSize(h: seq<Blk>, i: nat): int
    requires i < |h|
  {
    LeftSize(h, i) + h[i].size + RightSize(h, i)
  }

  // ----- allocation

  predicate Fits(b: Blk, n: int) { b.free && n <= b.size }

  /** Block `k` is a smallest free block of at least `n` bytes. */
  ghost predicate BestFit(h: seq<Blk>, k: int, n: int) {
    && 0 <= k < |h| && Fits(h[k], n)
    && forall i :: 0 <= i < |h| && Fits(h[i], n) ==> h[k].size <= h[i].size
  }

  ghost predicate NoFit(h: seq<Blk>, n: int) {
    forall i :: 0 <= i < |h| ==> !Fits(h[i], n)
  }

  /** Obtain `n` bytes at the end of the heap.  `limit` bounds the break; the result is the block handed out, if any. */
  function Grow(s: State, n: int, limit: int): (State, int) {
    var last := |s.blocks| - 1;
    if 0 <= last && s.blocks[last].free then
      var b := s.blocks[last];
      var brk' := s.brk + n - b.size;
      if limit < brk' then (s, 0)
      else (State(s.blocks[last := Blk(b.addr, n, false)], brk', s.orphans), b.Payload())
    else if limit < s.brk + META then (s, 0)
    else if limit < s.brk + META + n then (State(s.blocks, s.brk + META, s.orphans + 1), 0)
    else (State(s.blocks + [Blk(s.brk, n, false)], s.brk + META + n, s.orphans), s.brk + META)
  }

  /** The header of a new block can still be obtained, but not its payload. */
  ghost predicate Strands(s: State, n: int, limit: int) {
    && NoFit(s.blocks, n) && (s.blocks == [] || !s.blocks[|s.blocks| - 1].free)
    && s.brk + META <= limit < s.brk + META + n
  }

  /** What a request for `0 < n < MMAP_SIZE` bytes does: `r` is the payload address handed out, or 0. */
  ghost predicate Malloc(s: State, s': State, n: int, limit: int, r: int) {
    if NoFit(s.blocks, n) then (s', r) == Grow(s, n, limit)
    else exists k :: BestFit(s.blocks, k, n) && s' == s.(blocks := Carve(s.blocks, k, n)) && r == s.blocks[k].Payload()
  }

  /** A request for `n` bytes, rounded up, over the sbrk heap `s` and the mmapped blocks `maps`. */
  ghost predicate Outcome(s: State, maps: seq<Blk>, s': State, maps': seq<Blk>, n: int, limit: int, r: int) {
    if n == 0 || n > MAX_REQUEST then r == 0 && s' == s && maps' == maps
    else if n >= MMAP_SIZE then s' == s && maps' == if r == 0 then maps else maps + [Blk(r - META, n, false)]
    else maps' == maps && Malloc(s, s', n, limit, r)
  }

  /** Block `b` of `h` in use has its payload at `r` and room for `n` bytes. */
  ghost predicate Serves(h: seq<Blk>, r: int, n: int) {
    exists b :: b in h && !b.free && b.Payload() == r && n <= b.size
  }

  /** Every block in use other than the one at `but` is still there, unmoved and of the same size. */
  ghost predicate Persist(h: seq<Blk>, h': seq<Blk>, but: int) {
    forall b :: b in h && !b.free && b.addr != but ==> b in h'
  }

  // ----- reallocation

  datatype Path = Reuse | MergeLeft | MergeRight | MergeBoth | Wilderness | Move

  /** The way srealloc takes for block `i` of the heap and a request of `n < MMAP_SIZE` bytes. */
  function PathOf(h: seq<Blk>, i: nat, n: int): Path
    requires i < |h|
  {
    var size := h[i].size;
    if n <= size then Reuse
    else if 0 < i && h[i - 1].size + size + META >= n && h[i - 1].free then MergeLeft
    else if i + 1 < |h| && h[i + 1].size + size + META >= n && h[i + 1].free then MergeRight
    else if 0 < i && i + 1 < |h| && h[i - 1].size + h[i + 1].size + size + 2 * META >= n && h[i + 1].free
            && h[i - 1].free then MergeBoth
    else if i + 1 == |h| then Wilderness
    else Move
  }

  /** The heap once srealloc has united block `i` along an in-place path, and the position of the united block. */
  function United(h: seq<Blk>, i: nat, path: Path): (seq<Blk>, int)
    requires i < |h|
  {
    match path
    case MergeLeft => (Unite(Release(h, i), i - 1), i - 1)
    case MergeRight => (Unite(Release(h, i), i), i)
    case MergeBoth => (Unite(Unite(Release(h, i), i), i - 1), i - 1)
    case _ => (h, i)
  }

  /** The first and the last of the blocks that an in-place path uses. */
  function SpanOf(i: nat, path: Path): (int, int) {
    match path
    case MergeLeft => (i - 1, i)
    case MergeRight => (i, i + 1)
    case MergeBoth => (i - 1, i + 1)
    case _ => (i, i)
  }

  /** Every block that reallocating block `i` to `n` bytes creates by merging has a size class in the histogram. */
  predicate ReallocFits(h: seq<Blk>, i: nat, n: int)
    requires i < |h|
  {
    if n >= MMAP_SIZE then MergedSize(h, i) < MMAP_SIZE
    else
      match PathOf(h, i, n)
      case MergeLeft => LeftSize(h, i) + h[i].size < MMAP_SIZE
      case MergeRight => h[i].size + RightSize(h, i) < MMAP_SIZE
      case MergeBoth => MergedSize(h, i) < MMAP_SIZE
      case _ => true
  }

  /** Enlarge the used last block `i` to `n` bytes. */
  function Stretch(s: State, i: nat, n: int, limit: int): (State, int)
    requires i < |s.blocks|
  {
    var b := s.blocks[i];
    if limit < s.brk + n - b.size then (s, 0)
    else (State(s.blocks[i := b.(size := n)], s.brk + n - b.size, s.orphans), b.Payload())
  }

  /** What reallocating the used block `i` to `0 < n < MMAP_SIZE` bytes
    * does: `r` is the payload address handed out, or 0. */
  ghost predicate Realloc(s: State, s': State, i: nat, n: int, limit: int, r: int)
    requires i < |s.blocks|
  {
    match PathOf(s.blocks, i, n)
    case Wilderness => (s', r) == Stretch(s, i, n, limit)
    case Move => exists s1 :: Malloc(s, s1, n, limit, r) && Vacated(s1, s', s.blocks[i], r)
    case path =>
      var (u, j) := United(s.blocks, i, path);
      0 <= j < |u| && s' == s.(blocks := Carve(u, j, n)) && r == u[j].Payload()
  }

  /** After an allocation at `r`, the old block `b` is released if the allocation succeeded. */
  ghost predicate Vacated(s1: State, s': State, b: Blk, r: int) {
    if r == 0 then s' == s1
    else exists k :: 0 <= k < |s1.blocks| && s1.blocks[k] == b && s' == s1.(blocks := Free(s1.blocks, k))
  }

  /** The mmapped block `b` has been unmapped. */
  ghost predicate Unmapped(maps: seq<Blk>, maps': seq<Blk>, b: Blk) {
    exists k :: 0 <= k < |maps| && maps[k] == b && maps' == maps[..k] + maps[k + 1..]
  }

  /** What reallocating block `b`, from either source, to `n >= MMAP_SIZE` bytes does. */
  ghost predicate Remapped(s: State, maps: seq<Blk>, s': State, maps': seq<Blk>, b: Blk, n: int, r: int) {
    if r == 0 then s' == s && maps' == maps
    else
      var maps1 := maps + [Blk(r - META, n, false)];
      || (maps' == maps1 && Vacated(s, s', b, r))
      || (s' == s && Unmapped(maps1, maps', b))
  }

  /** Block `b` is gone: released if it was of the sbrk heap, else unmapped. */
  ghost predicate Gone(s: State, maps: seq<Blk>, s': State, maps': seq<Blk>, b: Blk, limit: int, r: int) {
    if b.addr < limit then maps' == maps && Vacated(s, s', b, r) else s' == s && Unmapped(maps, maps', b)
  }

  /** What reallocating block `b` by moving it does; `i` is its position when it is of the sbrk heap. */
  ghost predicate MoveDone(s: State, maps: seq<Blk>, s': State, maps': seq<Blk>, b: Blk, i: nat, n: int, limit: int,
                           r: int) {
    if n < MMAP_SIZE then maps' == maps && i < |s.blocks| && Realloc(s, s', i, n, limit, r)
    else Remapped(s, maps, s', maps', b, n, r)
  }
}
