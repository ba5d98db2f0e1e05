/** Which bytes belong to somebody: payloads of blocks in use, and the writes that leave them alone. */
module Payload {
  import opened Basics
  import opened Links
  import opened Heap
  import opened HeapLaws
  import opened Memory

  /** Address `x` lies in the payload of `b`, which is in use. */
  predicate Holds(b: Blk, x: int) {
    !b.free && b.Payload() <= x < b.End()
  }

  /** Address `x` lies in the payload of a block in use other than the one with header `but`. */
  ghost predicate Held(h: seq<Blk>, x: int, but: Ptr) {
    exists i :: 0 <= i < |h| && h[i].addr != but && Holds(h[i], x)
  }

  /** Every payload byte in use, other than those of the block `but`, is as it was. */
  ghost predicate Kept(m: Mem, m': Mem, h: seq<Blk>, but: Ptr) {
    forall x :: Held(h, x, but) ==> m'(x) == m(x)
  }

  /** Only bytes of the headers `s` and of the range from `lo` to `hi` differ. */
  ghost predicate SameBut(m: Mem, m': Mem, s: set<Ptr>, lo: int, hi: int) {
    forall x :: !Under(s, x) && !(lo <= x < hi) ==> m'(x) == m(x)
  }

  /** The sbrk blocks `h` lie in order below the break, the mmapped blocks `maps` above the limit. */
  ghost predicate Placed(h: seq<Blk>, maps: seq<Blk>, base: int, brk: int, limit: int) {
    && BlocksOK(h, base, brk) && brk <= limit
    && (forall i :: 0 <= i < |maps| ==> limit <= maps[i].addr)
  }

  ghost predicate Addresses(h: seq<Blk>, ps: seq<Ptr>) {
    |ps| == |h| && forall i :: 0 <= i < |h| ==> h[i].addr == ps[i]
  }

  /** A byte held by one block lies outside every block between `a` and `b` that holds nothing. */
  lemma HeldElsewhere(h: seq<Blk>, maps: seq<Blk>, base: int, brk: int, limit: int, x: int, but: Ptr, a: nat, b: nat)
    requires Placed(h, maps, base, brk, limit) && Held(h + maps, x, but) && a <= b < |h|
    requires forall i :: a <= i <= b ==> h[i].free || h[i].addr == but
    ensures !(h[a].addr <= x < h[b].End())
  {
    var i :| 0 <= i < |h + maps| && (h + maps)[i].addr != but && Holds((h + maps)[i], x);
    assert BlockOK(h[b], base, brk);
    if i < |h| {
      assert (h + maps)[i] == h[i];
    } else {
      assert (h + maps)[i] == maps[i - |h|];
    }
  }

  /** A byte held by a block lies in no header. */
  lemma HeldNotHeader(h: seq<Blk>, maps: seq<Blk>, base: int, brk: int, limit: int, ps: seq<Ptr>, x: int, but: Ptr)
    requires Placed(h, maps, base, brk, limit) && Addresses(h, ps) && Held(h + maps, x, but)
    ensures !Under(Touched(ps, brk, limit), x)
  {
    var i :| 0 <= i < |h + maps| && (h + maps)[i].addr != but && Holds((h + maps)[i], x);
    if i < |h| {
      assert (h + maps)[i] == h[i];
      PayloadNotHeader(h, base, brk, limit, ps, i, x);
    } else {
      assert (h + maps)[i] == maps[i - |h|];
      forall p | p in Touched(ps, brk, limit)
        ensures !InHeader(p, x)
      {
        if p in ps {
          var j :| 0 <= j < |ps| && ps[j] == p;
          assert BlockOK(h[j], base, brk);
        }
      }
    }
  }

  /** A payload byte of any block lies in no header. */
  lemma PayloadNotHeader(h: seq<Blk>, base: int, brk: int, limit: int, ps: seq<Ptr>, i: nat, x: int)
    requires BlocksOK(h, base, brk) && Addresses(h, ps) && i < |h|
    requires h[i].Payload() <= x < h[i].End()
    ensures !Under(Touched(ps, brk, limit), x)
  {
    assert BlockOK(h[i], base, brk);
    forall p | p in Touched(ps, brk, limit)
      ensures !InHeader(p, x)
    {
      if p in ps {
        var j :| 0 <= j < |ps| && ps[j] == p;
        assert BlockOK(h[j], base, brk);
      }
    }
  }

  /** Writing headers keeps every payload. */
  lemma HeadersKept(m: Mem, m': Mem, h: seq<Blk>, maps: seq<Blk>, base: int, brk: int, limit: int, ps: seq<Ptr>,
                    but: Ptr)
    requires Placed(h, maps, base, brk, limit) && Addresses(h, ps)
    requires SameOutside(m, m', Touched(ps, brk, limit))
    ensures Kept(m, m', h + maps, but)
  {
    forall x | Held(h + maps, x, but)
      ensures m'(x) == m(x)
    {
      HeldNotHeader(h, maps, base, brk, limit, ps, x, but);
    }
  }

  /** Writing headers of the list keeps every payload, free or not. */
  lemma NodesKept(m: Mem, m': Mem, h: seq<Blk>, maps: seq<Blk>, base: int, brk: int, limit: int, ps: seq<Ptr>, i: nat,
                  but: Ptr)
    requires Placed(h, maps, base, brk, limit) && Addresses(h, ps) && i < |h|
    requires SameOutside(m, m', Nodes(ps))
    ensures Kept(m, m', h + maps, but)
    ensures Carried(m, m', h[i].Payload(), h[i].Payload(), h[i].size)
  {
    NodesTouched(ps, brk, limit);
    forall x | !Under(Touched(ps, brk, limit), x)
      ensures m'(x) == m(x)
    {
      NotUnderNodes(ps, brk, limit, x);
    }
    HeadersKept(m, m', h, maps, base, brk, limit, ps, but);
    forall x | h[i].Payload() <= x < h[i].End()
      ensures m'(x) == m(x)
    {
      PayloadNotHeader(h, base, brk, limit, ps, i, x);
    }
  }

  /** Writing headers and inside blocks `a` to `b`, which hold nothing of interest, keeps every other payload. */
  lemma RegionKept(m: Mem, m': Mem, h: seq<Blk>, maps: seq<Blk>, base: int, brk: int, limit: int, ps: seq<Ptr>,
                   a: nat, b: nat, but: Ptr)
    requires Placed(h, maps, base, brk, limit) && Addresses(h, ps) && a <= b < |h|
    requires forall i :: a <= i <= b ==> h[i].free || h[i].addr == but
    requires SameBut(m, m', Nodes(ps), h[a].addr, h[b].End())
    ensures Kept(m, m', h + maps, but)
  {
    forall x | Held(h + maps, x, but)
      ensures m'(x) == m(x)
    {
      HeldElsewhere(h, maps, base, brk, limit, x, but, a, b);
      HeldNotHeader(h, maps, base, brk, limit, ps, x, but);
      assert Nodes(ps) <= Touched(ps, brk, limit);
    }
  }

  /** A header beyond the mmapped blocks keeps every payload. */
  lemma AboveKept(m: Mem, m': Mem, h: seq<Blk>, maps: seq<Blk>, base: int, brk: int, limit: int, p: Ptr, but: Ptr)
    requires Placed(h, maps, base, brk, limit) && limit <= p && SameOutside(m, m', {p})
    requires forall i :: 0 <= i < |maps| ==> maps[i].End() <= p
    ensures Kept(m, m', h + maps, but)
  {
    forall x | Held(h + maps, x, but)
      ensures m'(x) == m(x)
    {
      var i :| 0 <= i < |h + maps| && (h + maps)[i].addr != but && Holds((h + maps)[i], x);
      assert i < |h| ==> (h + maps)[i] == h[i] && BlockOK(h[i], base, brk);
      assert i >= |h| ==> (h + maps)[i] == maps[i - |h|];
    }
  }

  /** A new header inside the range counts as a write to the range. */
  lemma HeaderInside(m: Mem, m': Mem, s: set<Ptr>, p: Ptr, lo: int, hi: int)
    requires SameOutside(m, m', s + {p}) && lo <= p && p + META <= hi
    ensures SameBut(m, m', s, lo, hi)
  {
    forall x | !Under(s, x) && !(lo <= x < hi)
      ensures m'(x) == m(x)
    {
      assert !Under(s + {p}, x);
    }
  }

  lemma SameButTrans(m: Mem, m': Mem, m'': Mem, s: set<Ptr>, lo: int, hi: int)
    requires SameBut(m, m', s, lo, hi) && SameBut(m', m'', s, lo, hi)
    ensures SameBut(m, m'', s, lo, hi)
  {
  }

  lemma SameButWiden(m: Mem, m': Mem, s: set<Ptr>, t: set<Ptr>, lo: int, hi: int)
    requires SameOutside(m, m', s) && s <= t
    ensures SameBut(m, m', t, lo, hi)
  {
    forall x | !Under(t, x)
      ensures m'(x) == m(x)
    {
      assert !Under(s, x);
    }
  }

  lemma KeptNow(m: Mem, h: seq<Blk>, but: Ptr)
    ensures Kept(m, m, h, but)
  {
  }

  lemma KeptTrans(m: Mem, m': Mem, m'': Mem, h: seq<Blk>, but: Ptr)
    requires Kept(m, m', h, but) && Kept(m', m'', h, but)
    ensures Kept(m, m'', h, but)
  {
  }

  // ----- reallocation in place

  /** Block `j` of `h1`, with headers at `ps1`, spans blocks `a` to `b` of `h`, of which only block `i` is in use. */
  ghost predicate Spans(h: seq<Blk>, ps: seq<Ptr>, h1: seq<Blk>, ps1: seq<Ptr>, a: int, b: int, i: int, j: int) {
    && Addresses(h, ps) && Addresses(h1, ps1) && Nodes(ps1) <= Nodes(ps)
    && 0 <= a <= i <= b < |h| && (forall t :: a <= t <= b && t != i ==> h[t].free)
    && 0 <= j < |h1| && h1[j].addr == h[a].addr && h1[j].End() <= h[b].End()
  }

  /** The united block of an in-place path spans the blocks it came from. */
  lemma UnitedSpans(h: seq<Blk>, ps: seq<Ptr>, u: seq<Blk>, ps1: seq<Ptr>, base: int, brk: int, a: nat, b: nat,
                    i: nat, j: nat, n: int, path: Path)
    requires BlocksOK(h, base, brk) && i < |h| && !h[i].free && path == PathOf(h, i, n)
             && path in {MergeLeft, MergeRight, MergeBoth}
    requires Addresses(h, ps) && Addresses(u, ps1) && Nodes(ps1) <= Nodes(ps)
    requires United(h, i, path) == (u, j) && SpanOf(i, path) == (a, b)
    ensures Spans(h, ps, u, ps1, a, b, i, j)
  {
    UnitedFacts(h, base, brk, i, n);
  }

  /** Block `i` of `h` with free neighbours becomes block `j` of `h1`, which spans blocks `a` to `b`; its payload
    * is moved to the front of the joint payload and at most the part beyond `n` bytes is written afterwards. */
  lemma SpanKept(m: Mem, m1: Mem, m2: Mem, m3: Mem, h: seq<Blk>, maps: seq<Blk>, base: int, brk: int, limit: int,
                 ps: seq<Ptr>, h1: seq<Blk>, ps1: seq<Ptr>, a: nat, b: nat, i: nat, j: nat, n: nat, len: nat)
    requires Placed(h, maps, base, brk, limit) && BlocksOK(h1, base, brk) && Spans(h, ps, h1, ps1, a, b, i, j)
    requires len <= h1[j].size && n <= h1[j].size && (h[i].size <= len || n <= len)
    requires SameOutside(m, m1, Nodes(ps))
    requires Moved(m1, m2, h1[j].Payload(), h[i].Payload(), len)
    requires SameBut(m2, m3, Nodes(ps1), h1[j].Payload() + n, h1[j].End())
    ensures Carried(m, m3, h1[j].Payload(), h[i].Payload(), Min(h[i].size, n))
    ensures Kept(m, m3, h + maps, h[i].addr)
  {
    SpanOwn(m, m1, m2, m3, h, base, brk, limit, ps, h1, ps1, i, j, n, len);
    var lo, hi := h[a].addr, h[b].End();
    SameButWiden(m, m1, Nodes(ps), Nodes(ps), lo, hi);
    assert SameBut(m1, m2, Nodes(ps), lo, hi);
    forall x | !Under(Nodes(ps), x) && !(lo <= x < hi)
      ensures m3(x) == m2(x)
    {
      assert !Under(Nodes(ps1), x);
    }
    SameButTrans(m, m1, m2, Nodes(ps), lo, hi);
    SameButTrans(m, m2, m3, Nodes(ps), lo, hi);
    RegionKept(m, m3, h, maps, base, brk, limit, ps, a, b, h[i].addr);
  }

  lemma SpanSelf(h: seq<Blk>, ps: seq<Ptr>, i: nat)
    requires Addresses(h, ps) && i < |h|
    ensures Spans(h, ps, h, ps, i, i, i, i)
  {
  }

  lemma MovedNowhere(m: Mem, a: int, n: int)
    ensures Moved(m, m, a, a, n)
  {
  }

  lemma SpanOwn(m: Mem, m1: Mem, m2: Mem, m3: Mem, h: seq<Blk>, base: int, brk: int, limit: int, ps: seq<Ptr>,
                h1: seq<Blk>, ps1: seq<Ptr>, i: nat, j: nat, n: nat, len: nat)
    requires BlocksOK(h, base, brk) && Addresses(h, ps) && BlocksOK(h1, base, brk) && Addresses(h1, ps1) && i < |h|
    requires j < |h1| && n <= h1[j].size && (h[i].size <= len || n <= len) && SameOutside(m, m1, Nodes(ps))
    requires Moved(m1, m2, h1[j].Payload(), h[i].Payload(), len)
    requires SameBut(m2, m3, Nodes(ps1), h1[j].Payload() + n, h1[j].End())
    ensures Carried(m, m3, h1[j].Payload(), h[i].Payload(), Min(h[i].size, n))
  {
    var dst, src := h1[j].Payload(), h[i].Payload();
    forall x | dst <= x < dst + Min(h[i].size, n)
      ensures m3(x) == m(src + (x - dst))
    {
      var y := src + (x - dst);
      PayloadNotHeader(h, base, brk, limit, ps, i, y);
      PayloadNotHeader(h1, base, brk, limit, ps1, j, x);
      NotUnderNodes(ps, brk, limit, y);
      NotUnderNodes(ps1, brk, limit, x);
      assert m3(x) == m2(x) && m2(x) == m1(y) && m1(y) == m(y);
    }
  }

  lemma NotUnderNodes(ps: seq<Ptr>, brk: int, limit: int, x: int)
    requires !Under(Touched(ps, brk, limit), x)
    ensures !Under(Nodes(ps), x)
  {
    NodesTouched(ps, brk, limit);
  }

  // ----- moving into another block

  /** A range inside the payload of block `j` meets no header and no payload of another block. */
  lemma RangeApart(h: seq<Blk>, j: nat, lo: int, hi: int)
    requires PairwiseApart(h) && j < |h| && h[j].Payload() <= lo <= hi <= h[j].End()
    requires forall i :: 0 <= i < |h| ==> h[i].size >= 0
    ensures forall i :: 0 <= i < |h| ==> h[i].addr + META <= lo || hi <= h[i].addr
    ensures forall x :: lo <= x < hi ==> !Held(h, x, h[j].addr)
  {
  }

  /** A byte held before is held after, by a block other than the one at `q` that was not in use before. */
  lemma HeldPersists(h: seq<Blk>, h': seq<Blk>, x: int, but: Ptr, q: Ptr)
    requires Persist(h, h', 0) && Held(h, x, but) && (forall b :: b in h && !b.free ==> b.addr != q && b.addr != 0)
    ensures Held(h', x, q)
  {
    var i :| 0 <= i < |h| && h[i].addr != but && Holds(h[i], x);
    assert h[i] in h && h[i] in h';
  }

  /** Allocate `c`, move `len` bytes of `b` into it, release `b`. */
  lemma MoveKept(m: Mem, m1: Mem, m2: Mem, m3: Mem, h: seq<Blk>, h1: seq<Blk>, b: Blk, c: Blk, len: nat)
    requires b in h && !b.free && c in h1 && !c.free && len <= b.size && len <= c.size
    requires Persist(h, h1, 0) && (forall d :: d in h && !d.free ==> d.addr != c.addr && d.addr != 0) && c.addr != 0
    requires Kept(m, m1, h, 0) && Moved(m1, m2, c.Payload(), b.Payload(), len) && Kept(m2, m3, h1, 0)
    requires forall x :: c.Payload() <= x < c.Payload() + len ==> !Held(h1, x, c.addr)
    ensures Carried(m, m3, c.Payload(), b.Payload(), len)
    ensures Kept(m, m3, h, b.addr)
  {
    var dst, src := c.Payload(), b.Payload();
    forall x | dst <= x < dst + len
      ensures m3(x) == m(src + (x - dst))
    {
      var y := src + (x - dst);
      assert Holds(c, x) && Holds(b, y);
      assert Held(h1, x, 0) && Held(h, y, 0);
      assert m3(x) == m2(x) && m2(x) == m1(y) && m1(y) == m(y);
    }
    forall x | Held(h, x, b.addr)
      ensures m3(x) == m(x)
    {
      HeldPersists(h, h1, x, b.addr, c.addr);
      HeldPersists(h, h1, x, b.addr, 0);
      assert Held(h, x, 0);
    }
  }
}
