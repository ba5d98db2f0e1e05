/** A program that calls the allocator, with a log of its calls. Its log is a run, so what holds of runs holds of it. */
module Clients {
  import opened Basics
  import opened Links
  import opened Heap
  import opened Histogram
  import opened HeapView
  import opened Memory
  import opened Payload
  import opened Runs
  import M = Malloc

  class Client {
    const heap: M.Allocator
    ghost var log: seq<Moment>
    ghost var calls: seq<Call>

    ghost function Now(): Moment
      reads heap
    {
      Moment(heap.Sys(), heap.MapView(), heap.mem)
    }

    ghost predicate Valid()
      reads this, heap, heap.histogram
    {
      heap.Valid() && Run(log, calls, heap.base, heap.limit) && log[|log| - 1] == Now()
    }

    constructor (start: int, ceiling: int, memory: Mem, replies: nat -> M.Reply)
      requires 0 < start <= ceiling && start % 8 == 0
      ensures Valid() && fresh(heap) && fresh(heap.histogram) && |log| == 1 && calls == []
    {
      heap := new M.Allocator(start, ceiling, memory, replies);
      new;
      log, calls := [Now()], [];
    }

    /** Write `c` into the log. */
    ghost method Log(c: Call, m: Moment)
      requires heap.Valid() && Run(log, calls, heap.base, heap.limit) && log[|log| - 1] == m
      requires MapsApart(heap.MapView(), heap.limit) ==> Step(m, Now(), c, heap.limit)
      modifies this
      ensures Valid() && log == old(log) + [Now()] && calls == old(calls) + [c]
    {
      hide Step, MapsApart, Init;
      NowApart();
      Extended(log, calls, heap.base, heap.limit, Now(), c);
      log, calls := log + [Now()], calls + [c];
    }

    lemma NowApart()
      requires heap.Valid()
      ensures MapsApart(heap.MapView(), heap.limit)
    {
      hide Layout, HistoOK, Chain, FreeIs, PairwiseApart;
      forall i | 0 <= i < |heap.MapView()|
        ensures MapOK(heap.MapView()[i], heap.limit, heap.mapTop)
      {
        assert heap.mmaps[i] in heap.mmaps;
      }
    }

    method Smalloc(size: Size) returns (r: Ptr)
      requires Valid()
      modifies this, heap, heap.histogram
      ensures Valid() && log == old(log) + [Now()] && calls == old(calls) + [Request(M.RoundUp(size), r)]
    {
      hide Run, Outcome, Kept, MapsApart;
      ghost var m := Now();
      r := heap.Smalloc(size);
      M.RoundedIsAligned(size);
      Log(Request(M.RoundUp(size), r), m);
    }

    method Scalloc(num: Size, size: Size) returns (r: Ptr)
      requires Valid()
      modifies this, heap, heap.histogram
      ensures Valid() && log == old(log) + [Now()]
      ensures calls == old(calls) + [Request(M.RoundUp(Wrapped(num, size)), r)]
    {
      hide Run, Outcome, Kept, MapsApart;
      ghost var m := Now();
      r := heap.Scalloc(num, size);
      M.RoundedIsAligned(Wrapped(num, size));
      Log(Request(M.RoundUp(Wrapped(num, size)), r), m);
    }

    /** sfree of NULL or of a block released already does as much as a request for nothing. */
    method Sfree(p: Ptr)
      requires Valid() && heap.Freeable(p)
      requires p != NULL && !heap.data[p - META].isFree ==> heap.MergeFits(p - META)
      modifies this, heap, heap.histogram
      ensures Valid() && log == old(log) + [Now()]
      ensures calls == old(calls) + [if p == NULL || old(heap.data)[p - META].isFree then Request(0, 0)
                                     else Release(BlkOf(old(heap.data), p - META))]
    {
      hide Run, Outcome, Kept, Chain, HistoOK, Layout, FreeIs, MapsOK, ViewOf, Free, MergedSize, MapsApart;
      ghost var m := Now();
      if p == NULL || heap.data[p - META].isFree {
        heap.Sfree(p);
        NothingRequested(m, Now(), heap.limit, 0);
        Log(Request(0, 0), m);
      } else {
        ghost var b := BlkOf(heap.data, p - META);
        InUseAt(p - META);
        heap.Sfree(p);
        ReleaseIsStep(m, Now(), b);
        Log(Release(b), m);
      }
    }

    method Srealloc(p: Ptr, size: Size) returns (r: Ptr)
      requires Valid() && (p != NULL ==> heap.Live(p - META))
      requires p != NULL && 0 < M.RoundUp(size) <= MAX_REQUEST ==> heap.Reallocatable(p - META, M.RoundUp(size))
      modifies this, heap, heap.histogram
      ensures Valid() && log == old(log) + [Now()]
      ensures calls == old(calls) + [if p == NULL then Request(M.RoundUp(size), r)
                                     else Resize(BlkOf(old(heap.data), p - META), M.RoundUp(size), r)]
    {
      hide Run, Outcome, Kept, Chain, HistoOK, FreeIs, MapsOK, ViewOf, Carried, Realloc, Remapped, ReallocFits,
        MergedSize, MapsApart, Layout;
      ghost var m, n := Now(), M.RoundUp(size);
      M.RoundedIsAligned(size);
      if p == NULL {
        r := heap.Srealloc(NULL, size);
        if n == 0 || n > MAX_REQUEST {
          NothingRequested(m, Now(), heap.limit, n);
        }
        Log(Request(n, r), m);
      } else {
        ghost var b := BlkOf(heap.data, p - META);
        ghost var i := if p - META in heap.blocks then Idx(heap.blocks, p - META) else 0;
        InUseAt(p - META);
        Places(p - META, i);
        r := heap.Srealloc(p, size);
        ResizeIsStep(m, Now(), b, i, n, heap.limit, r);
        Log(Resize(b, n, r), m);
      }
    }

    /** Write the byte number `at` of the payload at `p`: it is no byte of a header. */
    method Store(p: Ptr, at: nat, v: Byte)
      requires Valid() && heap.Live(p - META) && at < heap.data[p - META].size
      modifies this, heap`mem
      ensures Valid() && log == old(log) + [Now()] && calls == old(calls) + [Write(BlkOf(heap.data, p - META))]
      ensures forall x :: heap.mem(x) == if x == p + at then v else old(heap.mem)(x)
      ensures forall q :: q in heap.blocks || q in heap.mmaps ==> !InHeader(q, p + at)
    {
      hide Run, Chain, HistoOK, Layout, FreeIs, MapsOK, ViewOf, MapsApart, Held;
      ghost var m, b := Now(), BlkOf(heap.data, p - META);
      InUseAt(p - META);
      ghost var j :| 0 <= j < |m.All()| && m.All()[j] == b;
      heap.ClearRange(j, p + at, p + at + 1);
      var mem := heap.mem;
      heap.mem := x => if x == p + at then v else mem(x);
      assert heap.Valid();
      Log(Write(b), m);
    }

    /** A live header is a block in use, where its index says. */
    lemma InUseAt(p: Ptr)
      requires heap.Valid() && heap.Live(p)
      ensures InUse(Now(), BlkOf(heap.data, p)) && BlkOf(heap.data, p).addr == p
      ensures p in heap.blocks ==> heap.View()[Idx(heap.blocks, p)] == BlkOf(heap.data, p)
      ensures p !in heap.blocks ==> heap.MapView()[Idx(heap.mmaps, p)] == BlkOf(heap.data, p)
    {
      hide Chain, HistoOK, Layout, FreeIs, MapsOK;
      heap.HeaderShows(p);
    }

    /** A block lies below the limit if it is of the sbrk heap, and then at one place only. */
    lemma Places(p: Ptr, i: nat)
      requires heap.Valid() && heap.Live(p) && (p in heap.blocks ==> i == Idx(heap.blocks, p))
      ensures p in heap.blocks <==> p < heap.limit
      ensures p in heap.blocks ==> forall j :: 0 <= j < |heap.View()| && heap.View()[j] == BlkOf(heap.data, p) ==>
              j == i
      ensures p !in heap.blocks ==> forall j :: 0 <= j < |heap.View()| ==> heap.View()[j] != BlkOf(heap.data, p)
    {
      hide HistoOK, FreeIs, MapsOK;
      heap.HeaderShows(p);
      heap.ListFacts();
      if p in heap.blocks {
        OnlyAt(heap.Sys(), heap.base, i);
      }
      assert forall j :: 0 <= j < |heap.View()| ==>
        heap.View()[j].addr == heap.blocks[j] && heap.blocks[j] in heap.blocks;
    }

    // ----- what runs say about the allocator

    /** The metadata bytes reported are in proportion to the blocks exactly when no call has asked
      * for a new block with room left for its header but not for its payload. */
    lemma MetaInProportion()
      requires Valid()
      ensures heap.numMeta * META == META * (|heap.View()| + |heap.MapView()|)
         <==> forall k :: 0 <= k < |calls| ==> !StrandsHeader(log[k], calls[k], heap.limit)
    {
      hide Run, HistoOK, Chain, FreeIs, MapsOK, Layout;
      LogLength(log, calls, heap.base, heap.limit);
      RunsStrand(log, calls, heap.base, heap.limit, |calls|);
    }

    /** Nor does anything else leave gaps in the area obtained from sbrk. */
    lemma HeapTiled()
      requires Valid()
      ensures Tiles(heap.View(), heap.base, heap.brk)
         <==> forall k :: 0 <= k < |calls| ==> !StrandsHeader(log[k], calls[k], heap.limit)
    {
      hide Run, HistoOK, Chain, FreeIs, MapsOK, Layout, Tiles;
      LogLength(log, calls, heap.base, heap.limit);
      RunsTile(log, calls, heap.base, heap.limit, |calls|);
    }

    /** A program that does not call srealloc, or whose reallocations never cut a
      * remainder off in front of a free block, has no two adjacent free blocks. */
    lemma HeapCoalesced()
      requires Valid()
      requires forall k :: 0 <= k < |calls| ==> !LeavesFreePair(log[k], calls[k], heap.limit)
      ensures NoAdjacentFree(heap.View())
    {
      hide Run, HistoOK, Chain, FreeIs, MapsOK, Layout, NoAdjacentFree, LeavesFreePair;
      LogLength(log, calls, heap.base, heap.limit);
      RunsCoalesce(log, calls, heap.base, heap.limit, |calls|);
    }
  }

  lemma LogLength(t: seq<Moment>, calls: seq<Call>, base: int, limit: int)
    requires Run(t, calls, base, limit)
    ensures |t| == |calls| + 1
  {
  }

  lemma NothingRequested(m: Moment, m': Moment, limit: int, n: int)
    requires m'.heap == m.heap && m'.maps == m.maps && (n == 0 || n > MAX_REQUEST)
    ensures Outcome(m.heap, m.maps, m'.heap, m'.maps, n, limit, 0)
  {
  }

  lemma ReleaseIsStep(m: Moment, m': Moment, b: Blk)
    requires InUse(m, b) && Kept(m.mem, m'.mem, m.All(), 0)
    requires || (m'.maps == m.maps
                 && exists k :: 0 <= k < |m.heap.blocks| && m.heap.blocks[k] == b
                                && MergedSize(m.heap.blocks, k) < MMAP_SIZE
                                && m'.heap == m.heap.(blocks := Free(m.heap.blocks, k)))
             || (exists k :: 0 <= k < |m.maps| && m.maps[k] == b && m'.heap == m.heap && m'.maps == RemoveAt(m.maps, k))
    ensures Releases(m, m', b)
  {
    hide Free, Kept, MergedSize;
  }

  lemma ResizeIsStep(m: Moment, m': Moment, b: Blk, i: nat, n: int, limit: int, r: int)
    requires InUse(m, b) && Kept(m.mem, m'.mem, m.All(), if r == 0 then 0 else b.addr) && 0 <= n && n % 8 == 0
    requires r != 0 ==> Carried(m.mem, m'.mem, r, b.Payload(), Min(b.size, n))
    requires b.addr < limit <==> i < |m.heap.blocks| && m.heap.blocks[i] == b
    requires forall j :: 0 <= j < |m.heap.blocks| && m.heap.blocks[j] == b ==> j == i
    requires b.addr < limit && 0 < n <= MAX_REQUEST ==> ReallocFits(m.heap.blocks, i, n)
    requires if n == 0 || n > MAX_REQUEST then r == 0 && m'.heap == m.heap && m'.maps == m.maps
             else if n >= MMAP_SIZE then Remapped(m.heap, m.maps, m'.heap, m'.maps, b, n, r)
             else
               && m'.maps == m.maps
               && if b.addr < limit then Realloc(m.heap, m'.heap, i, n, limit, r)
                  else m'.heap == m.heap && r == b.Payload()
    ensures Resizes(m, m', b, n, r, limit)
  {
    hide Realloc, Kept, Remapped, Carried, MergedSize;
  }
}
