/** Runs of the first-fit allocator, and a program that makes them. */
module FirstFitRuns {
  import opened Basics
  import opened Links
  import opened FirstFit

  /** What there is between two calls. */
  datatype Moment = Moment(heap: State, mem: Mem)

  /** smalloc or scalloc of `n` bytes, sfree of block `i`, srealloc of block `i` to `n` bytes, or a write to the payload
    * of block `i`. */
  datatype Call = Request(n: int) | Release(i: nat) | Resize(i: nat, n: int) | Write(i: nat)

  function Next(s: State, c: Call, limit: int): State {
    match c
    case Request(n) => Malloc(s, n, limit).0
    case Release(i) => if i < |s.blocks| then Free(s, i) else s
    case Resize(i, n) => if i < |s.blocks| then Realloc(s, i, n, limit).0 else s
    case Write(_) => s
  }

  predicate InUse(s: State, i: int) {
    0 <= i < |s.blocks| && !s.blocks[i].free
  }

  /** The payload address that srealloc of block `i` returns. */
  function Resized(s: State, i: nat, n: int, limit: int): int {
    if i < |s.blocks| then Realloc(s, i, n, limit).1 else 0
  }

  /** What the call leaves in memory. */
  ghost predicate Bytes(m: Moment, m': Moment, c: Call, limit: int) {
    match c
    case Request(n) => 0 <= n && Kept(m.mem, m'.mem, m.heap.blocks, NULL)
    case Release(i) => i < |m.heap.blocks| && Kept(m.mem, m'.mem, m.heap.blocks, NULL)
    case Resize(i, n) =>
      && 0 <= n && InUse(m.heap, i)
      && var b, r := m.heap.blocks[i], Resized(m.heap, i, n, limit);
         && Kept(m.mem, m'.mem, m.heap.blocks, if r == 0 then NULL else b.addr)
         && (r != 0 ==> Carried(m.mem, m'.mem, r, b.Payload(), Min(b.size, n)))
    case Write(i) =>
      InUse(m.heap, i) && SameBeyond(m.mem, m'.mem, m.heap.blocks[i].Payload(), m.heap.blocks[i].size)
  }

  ghost predicate Step(m: Moment, m': Moment, c: Call, limit: int) {
    m'.heap == Next(m.heap, c, limit) && Bytes(m, m', c, limit)
  }

  function Start(base: int): State {
    State([], base, 0, 0)
  }

  ghost predicate Run(t: seq<Moment>, calls: seq<Call>, base: int, limit: int) {
    && |t| == |calls| + 1 && 0 < base <= limit && t[0].heap == Start(base)
    && forall k :: 0 <= k < |calls| ==> Step(t[k], t[k + 1], calls[k], limit)
  }

  lemma Extended(t: seq<Moment>, calls: seq<Call>, base: int, limit: int, m: Moment, c: Call)
    requires Run(t, calls, base, limit) && Step(t[|t| - 1], m, c, limit)
    ensures Run(t + [m], calls + [c], base, limit)
  {
    hide Step, Start;
    var t', calls' := t + [m], calls + [c];
    forall k | 0 <= k < |calls'|
      ensures Step(t'[k], t'[k + 1], calls'[k], limit)
    {
      if k < |calls| {
        assert Step(t[k], t[k + 1], calls[k], limit);
      }
    }
  }

  // ----- every moment of a run is in order

  lemma MallocSeparate(s: State, n: int, limit: int)
    requires Separate(s.blocks, s.brk) && 0 <= n
    ensures Separate(Malloc(s, n, limit).0.blocks, Malloc(s, n, limit).0.brk)
  {
    hide Separate, FirstFit.FirstFit;
    var k := FirstFit.FirstFit(s.blocks, n);
    if n == 0 || n > MAX_REQUEST {
    } else if k < |s.blocks| {
      MarkSeparate(s.blocks, s.brk, k, false);
    } else {
      GrowSeparate(s.blocks, s.brk, n);
    }
  }

  lemma MarkSeparate(h: seq<Block>, brk: int, i: nat, free: bool)
    requires Separate(h, brk) && i < |h|
    ensures Separate(h[i := h[i].(free := free)], brk)
  {
  }

  /** With room for a header, or for a block. */
  lemma GrowSeparate(h: seq<Block>, brk: int, n: int)
    requires Separate(h, brk) && 0 < n <= MAX_REQUEST
    ensures Separate(h, brk + META) && Separate(h + [Block(brk, n, false)], brk + META + n)
  {
  }

  lemma NextSeparate(m: Moment, m': Moment, c: Call, limit: int)
    requires Separate(m.heap.blocks, m.heap.brk) && Step(m, m', c, limit)
    ensures Separate(m'.heap.blocks, m'.heap.brk)
  {
    hide Malloc, Separate, Kept, Carried;
    match c
    case Request(n) =>
      MallocSeparate(m.heap, n, limit);
    case Release(i) =>
      MarkSeparate(m.heap.blocks, m.heap.brk, i, true);
    case Resize(i, n) =>
      MallocSeparate(m.heap, n, limit);
      var s1 := Malloc(m.heap, n, limit).0;
      if i < |s1.blocks| {
        MarkSeparate(s1.blocks, s1.brk, i, true);
      }
    case Write(_) =>
  }

  lemma {:induction false} RunSeparate(t: seq<Moment>, calls: seq<Call>, base: int, limit: int, k: nat)
    requires Run(t, calls, base, limit) && k < |t|
    ensures Separate(t[k].heap.blocks, t[k].heap.brk)
  {
    hide Step;
    if k > 0 {
      RunSeparate(t, calls, base, limit, k - 1);
      assert Step(t[k - 1], t[k - 1 + 1], calls[k - 1], limit);
      NextSeparate(t[k - 1], t[k], calls[k - 1], limit);
    }
  }

  // ----- what is released can be had again

  /** In every run, when a block is released and the next call asks for no more bytes than it has, that call is served
    * and
    * the break stays where it is. */
  lemma RunsReuse(t: seq<Moment>, calls: seq<Call>, base: int, limit: int, k: nat)
    requires Run(t, calls, base, limit) && k + 1 < |calls| && calls[k].Release? && calls[k + 1].Request?
    requires calls[k].i < |t[k].heap.blocks| && 0 < calls[k + 1].n <= t[k].heap.blocks[calls[k].i].size
    ensures Malloc(t[k + 1].heap, calls[k + 1].n, limit).1 != 0 && t[k + 2].heap.brk == t[k].heap.brk
  {
    hide Malloc, Separate, Kept, Start;
    var i, n, s := calls[k].i, calls[k + 1].n, t[k + 1].heap;
    assert Step(t[k], t[k + 1], calls[k], limit) && Step(t[k + 1], t[k + 1 + 1], calls[k + 1], limit);
    RunSeparate(t, calls, base, limit, k);
    RunSeparate(t, calls, base, limit, k + 1);
    SizeBelow(t[k].heap, i);
    assert s.blocks[i].free && n <= s.blocks[i].size;
    MallocPromises(s, t[k + 2].heap, n, limit, Malloc(s, n, limit).1);
  }

  lemma SizeBelow(s: State, i: nat)
    requires Separate(s.blocks, s.brk) && i < |s.blocks|
    ensures s.blocks[i].size <= MAX_REQUEST
  {
  }

  // ----- headers left behind

  /** The call asks for a new block when there is room for its header but not for its payload. */
  predicate StrandsHeader(s: State, c: Call, limit: int) {
    match c
    case Request(n) => Strands(s, n, limit)
    case Resize(i, n) => i < |s.blocks| && s.blocks[i].size < n && Strands(s, n, limit)
    case _ => false
  }

  lemma NextStrands(s: State, c: Call, limit: int)
    ensures Next(s, c, limit).orphans == s.orphans + if StrandsHeader(s, c, limit) then 1 else 0
  {
  }

  /** No header is left behind exactly when no call asks for a new block with room for its header only. */
  lemma {:induction false} RunsStrand(t: seq<Moment>, calls: seq<Call>, base: int, limit: int, k: nat)
    requires Run(t, calls, base, limit) && k < |t|
    ensures t[k].heap.orphans == 0 <==> forall j :: 0 <= j < k ==> !StrandsHeader(t[j].heap, calls[j], limit)
  {
    hide StrandsHeader, Next, Bytes;
    if k > 0 {
      RunsStrand(t, calls, base, limit, k - 1);
      assert Step(t[k - 1], t[k - 1 + 1], calls[k - 1], limit);
      NextStrands(t[k - 1].heap, calls[k - 1], limit);
    }
  }

  /** One request with room for its header only, on the empty heap. */
  lemma StrandingRun(mem: Mem) returns (t: seq<Moment>, calls: seq<Call>)
    ensures Run(t, calls, 8, 50) && calls == [Request(100)] && StrandsHeader(t[0].heap, calls[0], 50)
    ensures t[1].heap == State([], 40, 1, 100)
  {
    t, calls := [Moment(Start(8), mem), Moment(State([], 40, 1, 100), mem)], [Request(100)];
    KeptNow(mem, []);
    assert Step(t[0], t[1], calls[0], 50);
  }

  // ----- payloads

  /** The call takes block `i` away or may change its payload. */
  predicate Touches(s: State, c: Call, i: int, limit: int) {
    match c
    case Request(_) => false
    case Release(j) => j == i
    case Resize(j, n) => j == i && Resized(s, j, n, limit) != 0
    case Write(j) => j == i
  }

  lemma MallocKeepsUsed(s: State, n: int, limit: int, i: nat)
    requires InUse(s, i)
    ensures var s' := Malloc(s, n, limit).0;
      i < |s'.blocks| && s'.blocks[i] == s.blocks[i]
  {
    FirstFitIs(s.blocks, n, FirstFit.FirstFit(s.blocks, n));
  }

  lemma NextKeepsUsed(s: State, c: Call, limit: int, i: nat)
    requires InUse(s, i) && !Touches(s, c, i, limit)
    ensures InUse(Next(s, c, limit), i) && Next(s, c, limit).blocks[i] == s.blocks[i]
  {
    hide Malloc;
    match c
    case Request(n) =>
      MallocKeepsUsed(s, n, limit, i);
    case Resize(j, n) =>
      MallocKeepsUsed(s, n, limit, i);
    case _ =>
  }

  lemma BlockKept(m: Mem, m': Mem, h: seq<Block>, but: Ptr, i: nat)
    requires Kept(m, m', h, but) && i < |h| && !h[i].free && h[i].addr != but
    ensures SameAt(m, m', h[i].Payload(), h[i].size)
  {
    hide Kept;
    forall x | h[i].Payload() <= x < h[i].End()
      ensures m'(x) == m(x)
    {
      assert Held(h, x, but);
      KeptByte(m, m', h, but, x);
    }
  }

  /** The `n` bytes at `p` are the same. */
  ghost predicate SameAt(m: Mem, m': Mem, p: int, n: int) {
    forall x :: p <= x < p + n ==> m'(x) == m(x)
  }

  /** A call leaves every block that it does not touch in use, with its payload. */
  lemma StepKeepsBlock(m: Moment, m': Moment, c: Call, limit: int, i: nat)
    requires Separate(m.heap.blocks, m.heap.brk) && Step(m, m', c, limit)
    requires InUse(m.heap, i) && !Touches(m.heap, c, i, limit)
    ensures InUse(m'.heap, i) && m'.heap.blocks[i] == m.heap.blocks[i]
    ensures SameAt(m.mem, m'.mem, m.heap.blocks[i].Payload(), m.heap.blocks[i].size)
  {
    hide Next, Kept, Carried, Resized, SameAt;
    NextKeepsUsed(m.heap, c, limit, i);
    var h := m.heap.blocks;
    match c
    case Request(_) =>
      BlockKept(m.mem, m'.mem, h, NULL, i);
    case Release(_) =>
      BlockKept(m.mem, m'.mem, h, NULL, i);
    case Resize(j, n) =>
      BlockKept(m.mem, m'.mem, h, if Resized(m.heap, j, n, limit) == 0 then NULL else h[j].addr, i);
    case Write(j) =>
      WrittenElsewhere(m.mem, m'.mem, m.heap, i, j);
  }

  lemma WrittenElsewhere(m: Mem, m': Mem, s: State, i: nat, j: nat)
    requires Separate(s.blocks, s.brk) && i < |s.blocks| && j < |s.blocks| && i != j
    requires SameBeyond(m, m', s.blocks[j].Payload(), s.blocks[j].size)
    ensures SameAt(m, m', s.blocks[i].Payload(), s.blocks[i].size)
  {
    assert s.blocks[i].End() <= s.blocks[j].addr || s.blocks[j].End() <= s.blocks[i].addr;
  }

  /** Over any run a block in use stays in use, with the bytes of its payload as they are, until it is touched. */
  lemma {:induction false} PayloadsSurvive(t: seq<Moment>, calls: seq<Call>, base: int, limit: int, k: nat, l: nat,
                                           i: nat)
    requires Run(t, calls, base, limit) && k <= l < |t| && InUse(t[k].heap, i)
    requires forall j :: k <= j < l ==> !Touches(t[j].heap, calls[j], i, limit)
    ensures InUse(t[l].heap, i) && t[l].heap.blocks[i] == t[k].heap.blocks[i]
    ensures SameAt(t[k].mem, t[l].mem, t[k].heap.blocks[i].Payload(), t[k].heap.blocks[i].size)
    decreases l - k
  {
    hide Step, Touches, Separate;
    if k < l {
      PayloadsSurvive(t, calls, base, limit, k, l - 1, i);
      RunSeparate(t, calls, base, limit, l - 1);
      assert !Touches(t[l - 1].heap, calls[l - 1], i, limit) && Step(t[l - 1], t[l - 1 + 1], calls[l - 1], limit);
      StepKeepsBlock(t[l - 1], t[l], calls[l - 1], limit, i);
    }
  }

  // ----- through reallocations

  /** Where block `i` is after the call: srealloc moves it when it is too small. */
  function Moves(s: State, c: Call, i: nat, limit: int): nat {
    if c.Resize? && c.i == i && i < |s.blocks| && s.blocks[i].size < c.n && Resized(s, i, c.n, limit) != 0
    then FirstFit.FirstFit(s.blocks, c.n) else i
  }

  /** Where block `i` before call `k` is before call `l`. */
  function Follow(t: seq<Moment>, calls: seq<Call>, k: nat, l: nat, i: nat, limit: int): nat
    requires k <= l <= |calls| && l < |t|
    decreases l - k
  {
    if k == l then i
    else Moves(t[l - 1].heap, calls[l - 1], Follow(t, calls, k, l - 1, i, limit), limit)
  }

  /** The call neither releases nor writes to block `i`, nor asks for less than `len` bytes of it. */
  predicate Spares(c: Call, i: nat, len: int) {
    match c
    case Request(_) => true
    case Release(j) => j != i
    case Resize(j, n) => j == i ==> n == 0 || len <= n
    case Write(j) => j != i
  }

  /** Block `j` is in use and its first `len` bytes are those of block `i` before. */
  ghost predicate Followed(m: Moment, m': Moment, i: nat, j: nat, len: int)
    requires i < |m.heap.blocks|
  {
    && InUse(m'.heap, j) && len <= m'.heap.blocks[j].size
    && Carried(m.mem, m'.mem, m'.heap.blocks[j].Payload(), m.heap.blocks[i].Payload(), len)
  }

  /** A successful srealloc returns the payload of a block in use with room for `n` bytes. */
  lemma ResizedPlace(s: State, i: nat, n: int, limit: int)
    requires Separate(s.blocks, s.brk) && InUse(s, i) && 0 <= n && Resized(s, i, n, limit) != 0
    ensures var s', j := Next(s, Resize(i, n), limit), Moves(s, Resize(i, n), i, limit);
      InUse(s', j) && s'.blocks[j].Payload() == Resized(s, i, n, limit) && n <= s'.blocks[j].size
    ensures 0 < n
  {
    FirstFitIs(s.blocks, n, FirstFit.FirstFit(s.blocks, n));
  }

  lemma StepFollows(m: Moment, m': Moment, c: Call, limit: int, i: nat, len: nat)
    requires Separate(m.heap.blocks, m.heap.brk) && Step(m, m', c, limit)
    requires InUse(m.heap, i) && len <= m.heap.blocks[i].size && Spares(c, i, len)
    ensures Followed(m, m', i, Moves(m.heap, c, i, limit), len)
  {
    hide Next, Kept, Separate;
    if Touches(m.heap, c, i, limit) {
      ResizedPlace(m.heap, i, c.n, limit);
    } else {
      StepKeepsBlock(m, m', c, limit, i);
    }
  }

  /** Over any run the first `len` bytes of a block's payload follow it through all reallocations, as long as it is not
    * written to, released or made shorter than that. */
  lemma {:induction false} PayloadsFollow(t: seq<Moment>, calls: seq<Call>, base: int, limit: int, k: nat, l: nat,
                                          i: nat, len: nat)
    requires Run(t, calls, base, limit) && k <= l < |t| && InUse(t[k].heap, i) && len <= t[k].heap.blocks[i].size
    requires forall j :: k <= j < l ==> Spares(calls[j], Follow(t, calls, k, j, i, limit), len)
    ensures Followed(t[k], t[l], i, Follow(t, calls, k, l, i, limit), len)
    decreases l - k
  {
    hide Step, Spares, Moves, Separate, Carried, Start;
    if k == l {
      CarriedNow(t[k].mem, t[k].heap.blocks[i].Payload(), len);
    } else {
      PayloadsFollow(t, calls, base, limit, k, l - 1, i, len);
      RunSeparate(t, calls, base, limit, l - 1);
      var j := Follow(t, calls, k, l - 1, i, limit);
      assert Spares(calls[l - 1], j, len) && Step(t[l - 1], t[l - 1 + 1], calls[l - 1], limit);
      StepFollows(t[l - 1], t[l], calls[l - 1], limit, j, len);
      var j' := Moves(t[l - 1].heap, calls[l - 1], j, limit);
      CarriedTrans(t[k].mem, t[l - 1].mem, t[l].mem, t[k].heap.blocks[i].Payload(), t[l - 1].heap.blocks[j].Payload(),
                   t[l].heap.blocks[j'].Payload(), len);
    }
  }

  // ----- a program

  lemma RequestIsStep(m: Moment, m': Moment, n: int, limit: int, r: int)
    requires (m'.heap, r) == Malloc(m.heap, n, limit) && 0 <= n && Kept(m.mem, m'.mem, m.heap.blocks, NULL)
    ensures Step(m, m', Request(n), limit)
  {
  }

  lemma ResizeIsStep(m: Moment, m': Moment, i: nat, n: int, limit: int, r: int)
    requires InUse(m.heap, i) && (m'.heap, r) == Realloc(m.heap, i, n, limit) && 0 <= n
    requires Kept(m.mem, m'.mem, m.heap.blocks, if r == 0 then NULL else m.heap.blocks[i].addr)
    requires r != 0 ==> Carried(m.mem, m'.mem, r, m.heap.blocks[i].Payload(), Min(m.heap.blocks[i].size, n))
    ensures Step(m, m', Resize(i, n), limit)
  {
    hide Realloc, Kept, Carried;
  }

  class Client {
    const heap: Allocator
    ghost var log: seq<Moment>
    ghost var calls: seq<Call>

    ghost function Now(): Moment
      reads heap
    {
      Moment(heap.Sys(), heap.mem)
    }

    /** The log is a run, and its last moment is now. */
    ghost predicate Valid()
      reads this, heap
    {
      heap.Valid() && Run(log, calls, heap.base, heap.limit) && log[|log| - 1] == Now()
    }

    constructor (start: int, ceiling: int, memory: Mem)
      requires 0 < start <= ceiling
      ensures Valid() && fresh(heap) && |log| == 1 && calls == []
    {
      heap := new Allocator(start, ceiling, memory);
      new;
      log, calls := [Now()], [];
    }

    ghost method Log(c: Call, m: Moment)
      requires heap.Valid() && Run(log, calls, heap.base, heap.limit) && log[|log| - 1] == m
      requires Step(m, Now(), c, heap.limit)
      modifies this
      ensures Valid() && log == old(log) + [Now()] && calls == old(calls) + [c]
    {
      hide Step, Start;
      Extended(log, calls, heap.base, heap.limit, Now(), c);
      log, calls := log + [Now()], calls + [c];
    }

    method Smalloc(size: Size) returns (r: Ptr)
      requires Valid()
      modifies this, heap
      ensures Valid() && log == old(log) + [Now()] && calls == old(calls) + [Request(size)]
    {
      hide Malloc, Run, Kept, Step;
      ghost var m := Now();
      r := heap.Smalloc(size);
      RequestIsStep(m, Now(), size, heap.limit, r);
      Log(Request(size), m);
    }

    method Scalloc(num: Size, size: Size) returns (r: Ptr)
      requires Valid()
      modifies this, heap
      ensures Valid() && log == old(log) + [Now()] && calls == old(calls) + [Request(Wrapped(num, size))]
    {
      hide Malloc, Run, Kept, Step;
      ghost var m := Now();
      r := heap.Scalloc(num, size);
      RequestIsStep(m, Now(), Wrapped(num, size), heap.limit, r);
      Log(Request(Wrapped(num, size)), m);
    }

    /** sfree(NULL) does as much as a request for nothing. */
    method Sfree(p: Ptr)
      requires Valid() && (p != NULL ==> p - META in heap.blocks)
      modifies this, heap
      ensures Valid() && log == old(log) + [Now()]
      ensures calls == old(calls) + [if p == NULL then Request(0) else Release(Idx(old(heap.blocks), p - META))]
    {
      hide Run, Kept;
      ghost var m := Now();
      ghost var c := if p == NULL then Request(0) else Release(Idx(heap.blocks, p - META));
      heap.Sfree(p);
      Log(c, m);
    }

    method Srealloc(p: Ptr, size: Size) returns (r: Ptr)
      requires Valid() && (p != NULL ==> p - META in heap.blocks && !heap.data[p - META].isFree)
      modifies this, heap
      ensures Valid() && log == old(log) + [Now()]
      ensures calls == old(calls) + [if p == NULL then Request(size) else Resize(Idx(old(heap.blocks), p - META), size)]
    {
      hide Malloc, Realloc, Run, Kept, Carried, Step, Chain, FreeListed, Total, LaidOut;
      ghost var m := Now();
      if p == NULL {
        r := heap.Srealloc(NULL, size);
        RequestIsStep(m, Now(), size, heap.limit, r);
        Log(Request(size), m);
      } else {
        ghost var i := Idx(heap.blocks, p - META);
        heap.BlockAt(i);
        r := heap.Srealloc(p, size);
        ResizeIsStep(m, Now(), i, size, heap.limit, r);
        Log(Resize(i, size), m);
      }
    }

    /** Write the byte number `at` of the payload at `p`: it is no byte of a header. */
    method Store(p: Ptr, at: nat, v: Byte)
      requires Valid() && p - META in heap.blocks && !heap.data[p - META].isFree && at < heap.data[p - META].size
      modifies this, heap`mem
      ensures Valid() && log == old(log) + [Now()] && calls == old(calls) + [Write(Idx(heap.blocks, p - META))]
      ensures forall x :: heap.mem(x) == if x == p + at then v else old(heap.mem)(x)
      ensures forall q :: q in heap.blocks ==> !(q <= p + at < q + META)
    {
      hide Run, Chain, FreeListed, Total, LaidOut;
      ghost var m, i := Now(), Idx(heap.blocks, p - META);
      heap.BlockAt(i);
      heap.ClearRange(i, p + at, p + at + 1);
      var mem := heap.mem;
      heap.mem := x => if x == p + at then v else mem(x);
      assert heap.Valid();
      Log(Write(i), m);
    }

    /** The counters of allocated blocks and bytes equal a recount over the heap exactly when no call has asked for a
      * new
      * block with room left for its header but not for its payload. */
    lemma AllocatedRecount()
      requires Valid()
      ensures heap.numBlocks == |heap.View()| <==>
              forall j :: 0 <= j < |calls| ==> !StrandsHeader(log[j].heap, calls[j], heap.limit)
      ensures heap.numBytes == AllSize(heap.View()) <==>
              forall j :: 0 <= j < |calls| ==> !StrandsHeader(log[j].heap, calls[j], heap.limit)
    {
      hide StrandsHeader, Step, Start;
      heap.CountersRecount();
      RunsStrand(log, calls, heap.base, heap.limit, |calls|);
    }
  }
}
