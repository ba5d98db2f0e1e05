/** What becomes of payloads over whole runs: a block in use keeps its bytes until it is
  * written to, reallocated or released, and they follow it through reallocations. */
module PayloadRuns {
  import opened Basics
  import opened Heap
  import opened HeapLaws
  import opened HeapCalls
  import opened Payload
  import opened Runs

  /** The call takes block `b` away or may change its payload. */
  predicate Touches(c: Call, b: Blk) {
    match c
    case Request(_, _) => false
    case Resize(b', _, r) => b' == b && r != 0
    case Release(b') => b' == b
    case Write(b') => b' == b
  }

  // ----- what each call leaves

  lemma RequestsPersist(m: Moment, m': Moment, n: int, r: int, base: int, limit: int)
    requires Sound(m, base, limit) && Sound(m', base, limit) && Requests(m, m', n, r, limit)
    ensures Persist(m.All(), m'.All(), 0)
  {
    hide Outcome, Persist, Kept, Sound, PairwiseApart;
    SoundLayout(m, base, limit);
    SoundApart(m', base, limit);
    OutcomeServes(m.heap, m.maps, m'.heap, m'.maps, base, n, limit, r);
  }

  lemma SoundLayout(m: Moment, base: int, limit: int)
    requires Sound(m, base, limit)
    ensures Layout(m.heap, base)
  {
  }

  lemma ReleasesPersist(m: Moment, m': Moment, b: Blk)
    requires Releases(m, m', b)
    ensures Persist(m.All(), m'.All(), b.addr)
  {
    hide Free, Persist, Kept, MergedSize;
    PersistSelf(m.heap.blocks, b.addr);
    PersistSelf(m.maps, b.addr);
    if m'.maps == m.maps && Freed(m.heap, m'.heap, b) {
      var k :| 0 <= k < |m.heap.blocks| && m.heap.blocks[k] == b
          && m'.heap == m.heap.(blocks := Free(m.heap.blocks, k));
      FreePersist(m.heap.blocks, k);
    } else {
      UnmapPersist(m.maps, m'.maps, b);
    }
    PersistConcat(m.heap.blocks, m'.heap.blocks, m.maps, m'.maps, b.addr);
  }

  lemma ResizedPersist(m: Moment, m': Moment, base: int, b: Blk, n: int, r: int, limit: int)
    requires Layout(m.heap, base) && InUse(m, b) && 0 <= n && Resized(m, m', b, n, r, limit)
    ensures Persist(m.All(), m'.All(), b.addr)
  {
    hide Realloc, Layout, Persist, Free, Vacated, Unmapped, MergedSize, ReallocFits;
    PersistSelf(m.heap.blocks, b.addr);
    PersistSelf(m.maps, b.addr);
    if MMAP_SIZE <= n <= MAX_REQUEST && r != 0 {
      RemappedPersist(m.heap, m.maps, m'.heap, m'.maps, b, n, r);
    } else if 0 < n < MMAP_SIZE && b.addr < limit {
      var i :| 0 <= i < |m.heap.blocks| && m.heap.blocks[i] == b && Realloc(m.heap, m'.heap, i, n, limit, r);
      ReallocPersist(m.heap, m'.heap, base, i, n, limit, r);
    }
    PersistConcat(m.heap.blocks, m'.heap.blocks, m.maps, m'.maps, b.addr);
  }

  lemma RemappedPersist(s: State, maps: seq<Blk>, s': State, maps': seq<Blk>, b: Blk, n: int, r: int)
    requires Remapped(s, maps, s', maps', b, n, r) && r != 0
    ensures Persist(s.blocks, s'.blocks, b.addr) && Persist(maps, maps', b.addr)
  {
    hide Persist, Vacated, Unmapped;
    var maps1 := maps + [Blk(r - META, n, false)];
    MorePersist(maps, Blk(r - META, n, false), b.addr);
    PersistSelf(s.blocks, b.addr);
    if maps' == maps1 && Vacated(s, s', b, r) {
      VacatedPersist(s, s', b, r);
    } else {
      UnmapPersist(maps1, maps', b);
      PersistTrans(maps, maps1, maps', b.addr);
    }
  }

  lemma MorePersist(maps: seq<Blk>, b: Blk, but: int)
    ensures Persist(maps, maps + [b], but)
  {
  }

  /** A failing srealloc leaves all blocks as they are. */
  lemma FailedResize(m: Moment, m': Moment, base: int, b: Blk, n: int, limit: int)
    requires Layout(m.heap, base) && InUse(m, b) && 0 <= n && 0 < limit && Resized(m, m', b, n, 0, limit)
    ensures m'.All() == m.All()
  {
    hide Realloc, Layout, ReallocFits;
    if 0 < n < MMAP_SIZE && b.addr < limit {
      var i :| 0 <= i < |m.heap.blocks| && m.heap.blocks[i] == b && Realloc(m.heap, m'.heap, i, n, limit, 0);
      FailedStays(m.heap, m'.heap, base, i, n, limit);
    }
  }

  lemma SoundLimit(m: Moment, base: int, limit: int)
    requires Sound(m, base, limit)
    ensures 0 < limit
  {
    hide Layout;
    BrkPositive(m.heap, base);
  }

  /** A call leaves every block that it does not touch in use, with its payload. */
  lemma StepKeepsBlock(m: Moment, m': Moment, c: Call, base: int, limit: int, b: Blk)
    requires Sound(m, base, limit) && Sound(m', base, limit) && Step(m, m', c, limit) && InUse(m, b) && !Touches(c, b)
    ensures InUse(m', b) && forall x :: b.Payload() <= x < b.End() ==> m'.mem(x) == m.mem(x)
  {
    hide Sound, MapsApart, Outcome, Resized, Kept, Carried, Freed, Unmapped;
    SoundApart(m, base, limit);
    SoundLayout(m, base, limit);
    match c
    case Request(n, r) =>
      RequestsPersist(m, m', n, r, base, limit);
      KeptBlock(m.mem, m'.mem, m.All(), 0, b);
    case Release(b') =>
      SameBlock(m, base, limit, b, b');
      ReleasesPersist(m, m', b');
      KeptBlock(m.mem, m'.mem, m.All(), 0, b);
    case Resize(b', n, r) =>
      if r == 0 {
        SoundLimit(m, base, limit);
        FailedResize(m, m', base, b', n, limit);
        KeptBlock(m.mem, m'.mem, m.All(), 0, b);
      } else {
        SameBlock(m, base, limit, b, b');
        ResizedPersist(m, m', base, b', n, r, limit);
        KeptBlock(m.mem, m'.mem, m.All(), b'.addr, b);
      }
    case Write(b') =>
      SameBlock(m, base, limit, b, b');
  }

  lemma KeptBlock(m: Mem, m': Mem, h: seq<Blk>, but: int, b: Blk)
    requires Kept(m, m', h, but) && b in h && !b.free && b.addr != but
    ensures forall x :: b.Payload() <= x < b.End() ==> m'(x) == m(x)
  {
    var i :| 0 <= i < |h| && h[i] == b;
    forall x | b.Payload() <= x < b.End()
      ensures m'(x) == m(x)
    {
      assert Holds(h[i], x);
      assert Held(h, x, but);
    }
  }

  /** Over any run a block in use stays in use, with the bytes of its payload as they are, until it is touched. */
  lemma {:induction false} PayloadsSurvive(t: seq<Moment>, calls: seq<Call>, base: int, limit: int, k: nat, l: nat,
                                           b: Blk)
    requires Run(t, calls, base, limit) && k <= l < |t| && InUse(t[k], b)
    requires forall j :: k <= j < l ==> !Touches(calls[j], b)
    ensures InUse(t[l], b) && forall x :: b.Payload() <= x < b.End() ==> t[l].mem(x) == t[k].mem(x)
    decreases l - k
  {
    hide Sound, Step, InUse, Touches;
    if k < l {
      PayloadsSurvive(t, calls, base, limit, k, l - 1, b);
      RunSound(t, calls, base, limit, l - 1);
      RunSound(t, calls, base, limit, l);
      assert !Touches(calls[l - 1], b) && Step(t[l - 1], t[l - 1 + 1], calls[l - 1], limit);
      StepKeepsBlock(t[l - 1], t[l], calls[l - 1], base, limit, b);
    }
  }

  // ----- through reallocations

  /** Where the payload at `p` is after the call. */
  function Moves(c: Call, p: int): int {
    if c.Resize? && c.b.Payload() == p && c.r != 0 then c.r else p
  }

  /** Where the payload at `p` before call `k` is before call `l`. */
  function Follow(calls: seq<Call>, k: nat, l: nat, p: int): int
    requires k <= l <= |calls|
    decreases l - k
  {
    if k == l then p else Moves(calls[l - 1], Follow(calls, k, l - 1, p))
  }

  /** The call neither releases nor writes to the payload at `p`, nor makes it shorter than `len`. */
  predicate Spares(c: Call, p: int, len: int) {
    match c
    case Request(_, _) => true
    case Release(b) => b.Payload() != p
    case Resize(b, n, r) => b.Payload() == p && r != 0 ==> len <= n
    case Write(b) => b.Payload() != p
  }

  /** There is a block in use at `p'` whose first `len` bytes are those at `p` before. */
  ghost predicate Followed(m: Moment, m': Moment, p: int, p': int, len: int) {
    && (exists b :: InUse(m', b) && b.Payload() == p' && len <= b.size)
    && Carried(m.mem, m'.mem, p', p, len)
  }

  lemma ResizeServes(m: Moment, m': Moment, base: int, b: Blk, n: int, r: int, limit: int)
    requires Sound(m, base, limit) && InUse(m, b) && 0 <= n && r != 0 && Resized(m, m', b, n, r, limit)
    requires MapsApart(m'.maps, limit)
    ensures exists c :: InUse(m', c) && c.Payload() == r && n <= c.size
  {
    hide Realloc, Layout, ReallocFits, MergedSize, Vacated;
    SoundPlace(m, base, b, limit);
    if n >= MMAP_SIZE {
      RemappedServes(m.heap, m.maps, m'.heap, m'.maps, b, n, r);
    } else if b.addr < limit {
      var i :| 0 <= i < |m.heap.blocks| && m.heap.blocks[i] == b && Realloc(m.heap, m'.heap, i, n, limit, r);
      ReallocServes(m.heap, m'.heap, base, i, n, limit, r);
      ServesMore(m'.heap.blocks, m'.maps, r, n);
    } else {
      assert InUse(m', b);
    }
    if n >= MMAP_SIZE || b.addr < limit {
      var c :| c in m'.All() && !c.free && c.Payload() == r && n <= c.size;
      assert InUse(m', c);
    }
  }

  lemma SoundPlace(m: Moment, base: int, b: Blk, limit: int)
    requires Sound(m, base, limit) && b in m.All()
    ensures if b in m.maps then limit <= b.addr && MMAP_SIZE <= b.size else b in m.heap.blocks && b.addr < limit
  {
    if b !in m.maps {
      var i :| 0 <= i < |m.heap.blocks| && m.heap.blocks[i] == b;
      LayoutBlock(m.heap, base, i);
    }
  }

  lemma StepFollows(m: Moment, m': Moment, c: Call, base: int, limit: int, b: Blk, len: nat)
    requires Sound(m, base, limit) && Sound(m', base, limit) && Step(m, m', c, limit)
    requires InUse(m, b) && len <= b.size && Spares(c, b.Payload(), len)
    ensures Followed(m, m', b.Payload(), Moves(c, b.Payload()), len)
  {
    hide Sound, MapsApart, Resized, Kept, Requests, Releases, Writes;
    if c.Resize? && c.b.Payload() == b.Payload() && c.r != 0 {
      SameBlock(m, base, limit, b, c.b);
      ResizeServes(m, m', base, b, c.n, c.r, limit);
    } else {
      StepKeepsBlock(m, m', c, base, limit, b);
    }
  }

  /** Over any run the first `len` bytes of a block's payload follow it through all
    * reallocations, as long as it is not written to, released or made shorter than that. */
  lemma {:induction false} PayloadsFollow(t: seq<Moment>, calls: seq<Call>, base: int, limit: int, k: nat, l: nat,
                                          b: Blk, len: nat)
    requires Run(t, calls, base, limit) && k <= l < |t| && InUse(t[k], b) && len <= b.size
    requires forall j :: k <= j < l ==> Spares(calls[j], Follow(calls, k, j, b.Payload()), len)
    ensures Followed(t[k], t[l], b.Payload(), Follow(calls, k, l, b.Payload()), len)
    decreases l - k
  {
    hide Sound, Step, InUse, Spares, Moves, Carried;
    if k == l {
      assert Carried(t[k].mem, t[k].mem, b.Payload(), b.Payload(), len) by {
        CarriedNow(t[k].mem, b.Payload(), len);
      }
    } else {
      PayloadsFollow(t, calls, base, limit, k, l - 1, b, len);
      RunSound(t, calls, base, limit, l - 1);
      RunSound(t, calls, base, limit, l);
      var p := Follow(calls, k, l - 1, b.Payload());
      var b' :| InUse(t[l - 1], b') && b'.Payload() == p && len <= b'.size;
      assert Spares(calls[l - 1], p, len) && Step(t[l - 1], t[l - 1 + 1], calls[l - 1], limit);
      StepFollows(t[l - 1], t[l], calls[l - 1], base, limit, b', len);
      CarriedTrans(t[k].mem, t[l - 1].mem, t[l].mem, b.Payload(), p, Moves(calls[l - 1], p), len);
    }
  }
}
