/** The coalescing allocator: an address-ordered list of blocks over the sbrk area, with a histogram of the free ones.
  *
  * Headers live in the heap, so a `MallocMetadata*` is the address of its header, and the fields of the structure are
  * maps from that address: `data` for size and is_free, `link` for list_next and list_prev, `hlink` for histo_next and
  * histo_prev.  Every write to a field may change all 48 bytes of the header in `mem`.
  */
module Malloc {
  import opened Basics
  import opened Links
  import opened Histogram
  import opened Heap
  import opened Memory
  import opened HeapLaws
  import opened HeapCalls
  import opened HeapView
  import opened Payload
  import opened Promises

  /** round_up, with the wrap-around of size_t. */
  function RoundUp(size: Size): Size {
    if size % 8 != 0 then (size + (8 - size % 8)) % WORD else size
  }

  lemma RoundedIsAligned(size: Size)
    ensures RoundUp(size) % 8 == 0
    ensures RoundUp(size) == 0 <==> size == 0 || size > WORD - 8
    ensures RoundUp(size) != 0 ==> size <= RoundUp(size) < size + 8
  {
  }

  lemma RoundedAlready(n: Size)
    requires n % 8 == 0
    ensures RoundUp(n) == n
  {
  }

  /** The start of some page above `top`. */
  function PageAbove(top: int, skipped: nat): (p: int)
    ensures top <= p && p % 8 == 0
  {
    var page := top / 4096 + 1 + skipped;
    assert 4096 * page == 8 * (512 * page);
    4096 * page
  }

  /** What mmap does when it is asked: refuse, or grant a region so many pages above the first one possible. */
  datatype Reply = Refused | Granted(skipped: nat)

  class Allocator {
    const base: int
    const limit: int                 // sbrk fails when the break would pass this address
    const replies: nat -> Reply      // what mmap does each time
    const histogram: array<Ptr>      // free_histogram[128]

    var mem: Mem
    var data: map<Ptr, Data>
    var link: map<Ptr, Link>
    var hlink: map<Ptr, Link>
    var brk: int
    var mapTop: int                  // mmap hands out addresses from here on
    var asked: nat                   // how often mmap has been asked

    var head: Ptr                    // all_list_head
    var end: Ptr                     // all_list_end
    var numMeta: int                 // num_of_metadatas
    var mmapedBlocks: int
    var mmapedBytes: int

    ghost var blocks: seq<Ptr>       // the list, in address order
    ghost var bins: seq<seq<Ptr>>    // the chains of the histogram
    ghost var free: set<Ptr>         // the headers in the histogram
    ghost var mmaps: seq<Ptr>        // live mmapped headers
    ghost var orphans: nat           // headers left behind by a failing second sbrk

    constructor (start: int, ceiling: int, memory: Mem, replies: nat -> Reply)
      requires 0 < start <= ceiling && start % 8 == 0
      ensures Valid() && Sys() == State([], start, 0) && MapView() == [] && base == start && limit == ceiling
      ensures fresh(histogram) && this.replies == replies && asked == 0
    {
      base, limit, brk, mapTop := start, ceiling, start, ceiling;
      this.replies, asked := replies, 0;
      mem, data, link, hlink := memory, map[], map[], map[];
      histogram := new Ptr[BUCKETS](_ => NULL);
      head, end, numMeta, mmapedBlocks, mmapedBytes := NULL, NULL, 0, 0, 0;
      blocks, bins, free, mmaps, orphans := [], seq(BUCKETS, _ => []), {}, [], 0;
    }

    ghost predicate Histo()
      reads this, histogram
    {
      histogram.Length == BUCKETS && HistoOK(data, hlink, histogram[..], bins, free)
    }

    ghost predicate ListOK()
      reads this
    {
      Chain(link, blocks) && head == At(blocks, 0) && end == At(blocks, |blocks| - 1)
    }

    ghost function View(): seq<Blk>
      reads this
    {
      ViewOf(blocks, data)
    }

    /** The live mmapped blocks. */
    ghost function MapView(): seq<Blk>
      reads this
    {
      ViewOf(mmaps, data)
    }

    ghost function Sys(): State
      reads this
    {
      State(View(), brk, orphans)
    }

    ghost function Mapped(): Maps
      reads this
    {
      Maps(mmaps, limit, mapTop, mmapedBytes)
    }

    ghost predicate Valid()
      reads this, histogram
    {
      && ListOK()
      && FreeIs(free, blocks, data)
      && Histo()
      && Layout(Sys(), base) && brk <= limit
      && MapsOK(Mapped(), data)
      && mmapedBlocks == |mmaps|
      && numMeta == |blocks| + |mmaps| + orphans
    }

    // ----- header fields

    method SetLink(p: Ptr, l: Link, ghost s: set<Ptr>)
      requires p in s
      modifies `link, `mem
      ensures link == old(link)[p := l]
      ensures SameOutside(old(mem), mem, s)
    {
      link := link[p := l];
      Clobber(p, s);
    }

    /** place_metadata */
    method SetData(p: Ptr, d: Data, ghost s: set<Ptr>)
      requires p in s
      modifies `data, `mem
      ensures data == old(data)[p := d]
      ensures SameOutside(old(mem), mem, s)
    {
      data := data[p := d];
      Clobber(p, s);
    }

    /** Write the histogram links of the header at `p`, one of the headers `s`. */
    method SetHisto(p: Ptr, l: Link, ghost s: set<Ptr>)
      requires p in s
      modifies `hlink, `mem
      ensures hlink == old(hlink)[p := l]
      ensures SameOutside(old(mem), mem, s)
    {
      hlink := hlink[p := l];
      Clobber(p, s);
    }

    /** The header at `p`, one of the headers `s`, is written; what its bytes become is not specified. */
    method Clobber(p: Ptr, ghost s: set<Ptr>)
      requires p in s
      modifies `mem
      ensures SameOutside(old(mem), mem, s)
    {
      var m := mem;
      mem := x => if InHeader(p, x) then 0 else m(x);
    }

    // ----- the histogram

    method RemoveNodeHisto(p: Ptr, ghost nodes: set<Ptr>)
      requires Histo() && (p != NULL ==> p in data && (data[p].isFree ==> p in free))
      requires forall q :: q in free ==> q in nodes
      modifies `hlink, `bins, `free, `mem, histogram
      ensures Histo()
      ensures if p != NULL && data[p].isFree then Without(old(free), free, p) else free == old(free)
      ensures SameOutside(old(mem), mem, nodes)
    {
      if p == NULL { return; }
      if !data[p].isFree { return; }
      var i := data[p].size / 1024;
      ghost var s := bins[i];
      assert BinOK(data, hlink, histogram[i], s, i, free);
      ghost var k := Idx(s, p);
      if histogram[i] == NULL { return; }
      UnlinkHisto(p, i, s, k, nodes);
      HistoRemove(data, old(hlink), hlink, old(histogram[..]), bins, free, i, k);
      bins := bins[i := RemoveAt(s, k)];
      free := free - {p};
    }

    /** Take `p`, at position `k` of chain `s`, out of bucket `i`. */
    method UnlinkHisto(p: Ptr, i: nat, ghost s: seq<Ptr>, ghost k: nat, ghost nodes: set<Ptr>)
      requires i < histogram.Length && Chain(hlink, s) && k < |s| && s[k] == p && histogram[i] == At(s, 0)
      requires forall q :: q in s ==> q in nodes
      modifies `hlink, `mem, histogram
      ensures SplicedOut(old(hlink), hlink, s, k)
      ensures forall q :: q in old(hlink) && q !in s ==> q in hlink && hlink[q] == old(hlink)[q]
      ensures histogram[..] == old(histogram[..])[i := At(RemoveAt(s, k), 0)]
      ensures SameOutside(old(mem), mem, nodes)
    {
      assert LinkedAt(hlink, s, k);
      var prev := hlink[p].prev;
      var next := hlink[p].next;
      assert next != NULL ==> next in s;
      assert prev != NULL ==> prev in s;
      if prev == NULL {
        histogram[i] := next;
        if next != NULL {
          SetHisto(next, hlink[next].(prev := NULL), nodes);
        }
      } else {
        SetHisto(prev, hlink[prev].(next := next), nodes);
        if next != NULL {
          SetHisto(next, hlink[next].(prev := prev), nodes);
        }
      }
      SetHisto(p, Link(NULL, NULL), nodes);
    }

    method AddNodeHisto(n: Ptr, ghost nodes: set<Ptr>)
      requires Histo() && n != NULL && n in data && n !in free && Bucket(data[n].size) < BUCKETS
      requires n in nodes && forall q :: q in free ==> q in nodes
      modifies `hlink, `bins, `free, `mem, histogram
      ensures Histo()
      ensures With(old(free), free, n)
      ensures SameOutside(old(mem), mem, nodes)
    {
      var i := data[n].size / 1024;
      ghost var s, j := bins[i], 0;
      assert BinOK(data, hlink, histogram[i], s, i, free);
      var ptr := histogram[i];
      var prev := NULL;
      while ptr != NULL
        invariant 0 <= j <= |s| && ptr == At(s, j) && prev == At(s, j - 1)
        invariant forall k :: 0 <= k < j ==> data[s[k]].size <= data[n].size
        decreases |s| - j
      {
        if data[ptr].size > data[n].size {
          break;
        }
        prev := ptr;
        assert LinkedAt(hlink, s, j);
        ptr := hlink[ptr].next;
        j := j + 1;
      }
      LinkHisto(n, i, prev, s, j, nodes);
      HistoInsert(data, old(hlink), hlink, old(histogram[..]), bins, free, n, j);
      bins := bins[i := InsertAt(s, j, n)];
      free := free + {n};
    }

    /** Put `n` into bucket `i` after `prev`, that is before position `j` of chain `s`. */
    method LinkHisto(n: Ptr, i: nat, prev: Ptr, ghost s: seq<Ptr>, ghost j: nat, ghost nodes: set<Ptr>)
      requires i < histogram.Length && Chain(hlink, s) && j <= |s| && n !in s && histogram[i] == At(s, 0)
               && prev == At(s, j - 1)
      requires n in nodes && forall q :: q in s ==> q in nodes
      modifies `hlink, `mem, histogram
      ensures SplicedIn(old(hlink), hlink, s, j, n)
      ensures forall q :: q in old(hlink) && q !in s && q != n ==> q in hlink && hlink[q] == old(hlink)[q]
      ensures histogram[..] == old(histogram[..])[i := At(InsertAt(s, j, n), 0)]
      ensures SameOutside(old(mem), mem, nodes)
    {
      assert j > 0 ==> LinkedAt(hlink, s, j - 1) && s[j - 1] in s;
      assert j < |s| ==> s[j] in s;
      if prev == NULL {
        SetHisto(n, Link(histogram[i], NULL), nodes);
        if histogram[i] != NULL {
          SetHisto(histogram[i], hlink[histogram[i]].(prev := n), nodes);
        }
        histogram[i] := n;
      } else {
        var next := hlink[prev].next;
        SetHisto(prev, hlink[prev].(next := n), nodes);
        SetHisto(n, Link(next, prev), nodes);
        if next != NULL {
          SetHisto(next, hlink[next].(prev := n), nodes);
        }
      }
    }

    // ----- the list

    /** Take the block at position `k`, which has a predecessor, off the list. */
    method UnlinkList(p: Ptr, ghost k: nat, ghost nodes: set<Ptr>)
      requires ListOK() && 0 < k < |blocks| && blocks[k] == p
      requires forall q :: q in blocks ==> q in nodes
      modifies `link, `end, `blocks, `mem
      ensures ListOK() && blocks == RemoveAt(old(blocks), k)
      ensures SameOutside(old(mem), mem, nodes)
    {
      assert LinkedAt(link, blocks, k);
      var prev := link[p].prev;
      var next := link[p].next;
      assert prev in blocks && (next != NULL ==> next in blocks);
      SetLink(prev, link[prev].(next := next), nodes);
      if next != NULL {
        SetLink(next, link[next].(prev := prev), nodes);
      } else {
        end := prev;
      }
      SetLink(p, Link(NULL, NULL), nodes);
      ChainRemove(old(link), link, blocks, k);
      blocks := RemoveAt(blocks, k);
    }

    // ----- merging

    method UniteRight(p: Ptr, ghost k: int)
      requires Valid() && -1 <= k < |blocks| && p == At(blocks, k)
      requires Mergeable(View(), k) ==> View()[k].size + META + View()[k + 1].size < MMAP_SIZE
      modifies `data, `link, `hlink, `end, `blocks, `bins, `free, `mem, `numMeta, histogram
      ensures Valid()
      ensures MapView() == old(MapView())
      ensures View() == Unite(old(View()), k)
      ensures blocks == if Mergeable(old(View()), k) then RemoveAt(old(blocks), k + 1) else old(blocks)
      ensures forall q :: q in old(data) && q != p ==> q in data && data[q] == old(data)[q]
      ensures SameOutside(old(mem), mem, Nodes(old(blocks)))
    {
      if p == NULL { return; }
      if !data[p].isFree { return; }
      assert LinkedAt(link, blocks, k);
      var node := link[p].next;
      if node == NULL { return; }
      if !data[node].isFree { return; }
      UniteBlocks(p, node, k);
    }

    method UniteBlocks(p: Ptr, node: Ptr, ghost k: nat)
      requires Valid() && k + 1 < |blocks| && p == blocks[k] && node == blocks[k + 1]
      requires Mergeable(View(), k) && View()[k].size + META + View()[k + 1].size < MMAP_SIZE
      modifies `data, `link, `hlink, `end, `blocks, `bins, `free, `mem, `numMeta, histogram
      ensures Valid()
      ensures MapView() == old(MapView())
      ensures View() == Merge(old(View()), k)
      ensures blocks == RemoveAt(old(blocks), k + 1)
      ensures forall q :: q in old(data) && q != p ==> q in data && data[q] == old(data)[q]
      ensures SameOutside(old(mem), mem, Nodes(old(blocks)))
    {
      hide Under, Nodes, Chain, HistoOK, RemoveAt, Layout, FreeIs, MapsOK, ViewOf, Distinct, Merge;
      BlockFits(k);
      BlockFits(k + 1);
      MergeState(blocks, data, free, Mapped(), Sys(), base, k);
      ghost var blocks', data' := RemoveAt(blocks, k + 1), data[p := Data(data[p].size + data[node].size + META, true)];
      MergeBlocks(p, node, k, Nodes(blocks));
      assert blocks == blocks' && data == data';
      FreeSame(old(free) - {node} - {p} + {p}, free, blocks, data);
    }

    /** Take two adjacent free blocks out of the histogram, and the second one off the list. */
    method Detach(p: Ptr, node: Ptr, ghost k: nat, ghost nodes: set<Ptr>)
      requires ListOK() && Histo() && k + 1 < |blocks| && p == blocks[k] && node == blocks[k + 1]
      requires p in free && node in free && p != node && p != NULL && node != NULL
      requires forall q :: q in blocks || q in free ==> q in nodes
      requires p in data && node in data && data[p].isFree && data[node].isFree
      modifies `link, `hlink, `end, `blocks, `bins, `free, `mem, histogram
      ensures ListOK() && Histo() && blocks == RemoveAt(old(blocks), k + 1)
      ensures forall q :: q in free <==> q in old(free) && q != node && q != p
      ensures SameOutside(old(mem), mem, nodes)
    {
      hide Nodes, Chain, HistoOK, RemoveAt, SameOutside;
      ghost var m0 := mem;
      RemoveNodeHisto(node, nodes);
      ghost var m1 := mem;
      RemoveNodeHisto(p, nodes);
      SameTrans(m0, m1, mem, nodes, nodes, nodes);
      ghost var m2 := mem;
      UnlinkList(node, k + 1, nodes);
      SameTrans(m0, m2, mem, nodes, nodes, nodes);
    }

    /** The pointer side of a merge. */
    method MergeBlocks(p: Ptr, node: Ptr, ghost k: nat, ghost nodes: set<Ptr>)
      requires ListOK() && Histo() && k + 1 < |blocks| && p == blocks[k] && node == blocks[k + 1]
      requires p in free && node in free && p != node && p != NULL && node != NULL
      requires forall q :: q in blocks || q in free ==> q in nodes
      requires p in data && node in data && data[p].isFree && data[node].isFree
      requires data[p].size + data[node].size + META < MMAP_SIZE
      modifies `data, `link, `hlink, `end, `blocks, `bins, `free, `mem, `numMeta, histogram
      ensures ListOK() && Histo() && blocks == RemoveAt(old(blocks), k + 1)
      ensures Without(old(free), free, node)
      ensures data == old(data)[p := Data(old(data)[p].size + old(data)[node].size + META, true)]
      ensures numMeta == old(numMeta) - 1
      ensures SameOutside(old(mem), mem, nodes)
    {
      hide Nodes, Chain, HistoOK, RemoveAt, SameOutside;
      ghost var m0 := mem;
      Detach(p, node, k, nodes);
      ghost var m1 := mem;
      HistoWrite(data, hlink, histogram[..], bins, free, p, Data(data[p].size + data[node].size + META, true));
      SetData(p, Data(data[p].size + data[node].size + META, true), nodes);
      SameTrans(m0, m1, mem, nodes, nodes, nodes);
      ghost var m2 := mem;
      AddNodeHisto(p, nodes);
      SameTrans(m0, m2, mem, nodes, nodes, nodes);
      numMeta := numMeta - 1;
    }

    // ----- marking

    /** is_free = true; add_node_histo */
    method MarkFree(p: Ptr, ghost k: nat)
      requires Valid() && k < |blocks| && p == blocks[k] && !data[p].isFree
      modifies `data, `hlink, `bins, `free, `mem, histogram
      ensures Valid()
      ensures MapView() == old(MapView())
      ensures View() == Release(old(View()), k)
      ensures data == old(data)[p := old(data)[p].(isFree := true)]
      ensures SameOutside(old(mem), mem, Nodes(blocks))
    {
      hide Under, Nodes, Chain, HistoOK, Layout, FreeIs, MapsOK, ViewOf, Distinct;
      BlockFits(k);
      MarkState(blocks, data, free, Mapped(), Sys(), base, k, true);
      HistoWrite(data, hlink, histogram[..], bins, free, p, data[p].(isFree := true));
      SetData(p, data[p].(isFree := true), Nodes(blocks));
      AddNodeHisto(p, Nodes(blocks));
      FreeSame(old(free) + {p}, free, blocks, data);
    }

    /** Sizes on the list have a bucket. */
    lemma BlockFits(k: nat)
      requires Valid() && k < |blocks|
      ensures blocks[k] in data && 0 < blocks[k] < limit && 0 < data[blocks[k]].size < MMAP_SIZE
              && data[blocks[k]].size % 8 == 0
      ensures Bucket(data[blocks[k]].size) < BUCKETS
      ensures View()[k] == Blk(blocks[k], data[blocks[k]].size, data[blocks[k]].isFree)
      ensures blocks[k] in free <==> data[blocks[k]].isFree
      ensures Distinct(blocks) && (forall q :: q in free ==> q in blocks)
      ensures k + 1 < |blocks| ==> blocks[k] != blocks[k + 1]
      ensures forall q :: q in blocks ==> q in Nodes(blocks)
    {
      assert blocks[k] in blocks;
      assert BlockOK(View()[k], base, brk);
    }

    /** Where everything lies. */
    lemma Placement()
      requires Valid()
      ensures Placed(View(), MapView(), base, brk, limit) && Addresses(View(), blocks) && BlocksOK(View(), base, brk)
      ensures limit <= mapTop && forall i :: 0 <= i < |mmaps| ==> MapView()[i].End() <= mapTop
    {
      forall i | 0 <= i < |mmaps|
        ensures MapOK(MapView()[i], limit, mapTop)
      {
        assert mmaps[i] in mmaps;
      }
    }

    lemma LinkFacts(k: nat)
      requires Valid() && k < |blocks|
      ensures blocks[k] in link && link[blocks[k]] == Link(At(blocks, k + 1), At(blocks, k - 1))
    {
      assert LinkedAt(link, blocks, k);
    }

    lemma ListFacts()
      requires Valid()
      ensures Distinct(blocks) && 0 < brk && (forall q :: q in free ==> q in blocks)
      ensures forall q :: q in blocks ==> q in Nodes(blocks)
    {
      ExtentPositive(View(), base, brk);
    }

    /** A header written outside the list disturbs neither the list nor the histogram. */
    lemma FreshHeader(p: Ptr, d: Data)
      requires ListOK() && Histo() && p !in blocks && p !in free
      ensures Chain(link[p := Link(NULL, NULL)], blocks)
      ensures HistoOK(data[p := d], hlink[p := Link(NULL, NULL)], histogram[..], bins, free)
    {
      ChainWrite(link, blocks, p, Link(NULL, NULL));
      HistoWrite(data, hlink, histogram[..], bins, free, p, d);
      HistoRelink(data[p := d], hlink, histogram[..], bins, free, p, Link(NULL, NULL));
    }

    /** remove_node_histo; is_free = false */
    method MarkUsed(p: Ptr, ghost k: nat)
      requires Valid() && k < |blocks| && p == blocks[k] && data[p].isFree
      modifies `data, `hlink, `bins, `free, `mem, histogram
      ensures Valid()
      ensures MapView() == old(MapView())
      ensures View() == old(View())[k := old(View())[k].(free := false)]
      ensures data == old(data)[p := old(data)[p].(isFree := false)]
      ensures SameOutside(old(mem), mem, Nodes(blocks))
    {
      hide Under, Nodes, Chain, HistoOK, Layout, FreeIs, MapsOK, ViewOf, Distinct;
      BlockFits(k);
      MarkState(blocks, data, free, Mapped(), Sys(), base, k, false);
      RemoveNodeHisto(p, Nodes(blocks));
      HistoWrite(data, hlink, histogram[..], bins, free, p, data[p].(isFree := false));
      SetData(p, data[p].(isFree := false), Nodes(blocks));
      FreeSame(old(free) - {p}, free, blocks, data);
    }

    // ----- splitting

    /** Put `node` on the list after `prev`, the node at position `j - 1`; without `prev` the list must be empty. */
    method AddNodeList(node: Ptr, prev: Ptr, ghost j: nat, ghost nodes: set<Ptr>)
      requires ListOK() && node != NULL && node !in blocks && j <= |blocks| && prev == At(blocks, j - 1)
               && (j == 0 ==> blocks == [])
      requires node in nodes && forall q :: q in blocks ==> q in nodes
      modifies `link, `head, `end, `blocks, `mem
      ensures ListOK() && blocks == InsertAt(old(blocks), j, node)
      ensures SameOutside(old(mem), mem, nodes)
    {
      hide Chain, SplicedIn, InsertAt, SameOutside;
      LinkNode(node, prev, j, nodes);
      ChainInsert(old(link), link, blocks, j, node);
      blocks := InsertAt(blocks, j, node);
    }

    /** The pointer side of add_node_list. */
    method LinkNode(node: Ptr, prev: Ptr, ghost j: nat, ghost nodes: set<Ptr>)
      requires ListOK() && node != NULL && node !in blocks && j <= |blocks| && prev == At(blocks, j - 1)
               && (j == 0 ==> blocks == [])
      requires node in nodes && forall q :: q in blocks ==> q in nodes
      modifies `link, `head, `end, `mem
      ensures SplicedIn(old(link), link, blocks, j, node)
      ensures head == At(InsertAt(blocks, j, node), 0) && end == At(InsertAt(blocks, j, node), |blocks|)
      ensures SameOutside(old(mem), mem, nodes)
    {
      hide SameOutside;
      ghost var m := mem;
      if prev == NULL {
        SetLink(node, Link(head, NULL), nodes);
        head := node;
        ghost var m1 := mem;
        SetLink(head, link[head].(prev := NULL), nodes);
        SameTrans(m, m1, mem, nodes, nodes, nodes);
        if link[node].next == NULL {
          end := node;
        }
      } else {
        assert LinkedAt(link, blocks, j - 1) && prev in blocks;
        var next := link[prev].next;
        assert next != NULL ==> next in blocks;
        SetLink(prev, link[prev].(next := node), nodes);
        ghost var m1 := mem;
        SetLink(node, Link(next, prev), nodes);
        SameTrans(m, m1, mem, nodes, nodes, nodes);
        if next != NULL {
          ghost var m2 := mem;
          SetLink(next, link[next].(prev := node), nodes);
          SameTrans(m, m2, mem, nodes, nodes, nodes);
        }
        if link[node].next == NULL {
          end := node;
        }
      }
    }

    method SplitBlock(current: Ptr, n: nat, ghost k: nat) returns (r: Ptr)
      requires Valid() && k < |blocks| && current == blocks[k]
      requires 0 < n && n % 8 == 0 && n + SPLIT <= data[current].size
      modifies `data, `link, `hlink, `head, `end, `blocks, `bins, `free, `mem, `numMeta, histogram
      ensures Valid() && r == current
      ensures MapView() == old(MapView())
      ensures View() == Carve(old(View()), k, n)
      ensures blocks == InsertAt(old(blocks), k + 1, current + META + n)
      ensures data == old(data)[current + META + n := Data(old(data)[current].size - n - META, true)]
                               [current := Data(n, false)]
      ensures SameOutside(old(mem), mem, Nodes(old(blocks)) + {current + META + n})
    {
      hide Under, Nodes, Chain, HistoOK, InsertAt, Carve, Layout, FreeIs, MapsOK, ViewOf, Distinct;
      BlockFits(k);
      SplitState(blocks, data, free, Mapped(), Sys(), base, k, n);
      ghost var blocks' := InsertAt(blocks, k + 1, current + META + n);
      ghost var data' := data[current + META + n := Data(data[current].size - n - META, true)]
                             [current := Data(n, false)];
      SplitPointers(current, n, k, Nodes(blocks) + {current + META + n});
      assert blocks == blocks' && data == data';
      FreeSame(old(free) + {current + META + n} - {current}, free, blocks, data);
      r := current;
    }

    /** The pointer side of a split. */
    method SplitPointers(current: Ptr, n: nat, ghost k: nat, ghost nodes: set<Ptr>)
      requires ListOK() && Histo() && k < |blocks| && current == blocks[k] && current in data && current != NULL
      requires 0 < n && n + SPLIT <= data[current].size < MMAP_SIZE
      requires current + META + n > 0 && current + META + n !in blocks && current + META + n !in free
      requires data[current].isFree <==> current in free
      requires current + META + n in nodes && forall q :: q in blocks || q in free ==> q in nodes
      modifies `data, `link, `hlink, `head, `end, `blocks, `bins, `free, `mem, `numMeta, histogram
      ensures ListOK() && Histo() && blocks == InsertAt(old(blocks), k + 1, current + META + n)
      ensures data == old(data)[current + META + n := Data(old(data)[current].size - n - META, true)]
                               [current := Data(n, false)]
      ensures forall q :: q in free <==> (q in old(free) || q == current + META + n) && q != current
      ensures numMeta == old(numMeta) + 1
      ensures SameOutside(old(mem), mem, nodes)
    {
      hide Nodes, Chain, HistoOK, InsertAt, SameOutside;
      ghost var m0 := mem;
      SplitData(current, n, nodes);
      ghost var m1 := mem;
      AddNodeList(current + META + n, current, k + 1, nodes);
      SameTrans(m0, m1, mem, nodes, nodes, nodes);
    }

    /** The fields of the two headers of a split, and the chain of the remainder. */
    method SplitData(current: Ptr, n: nat, ghost nodes: set<Ptr>)
      requires Histo() && current in data && current != NULL && 0 < n && current + META + n != NULL
      requires n + SPLIT <= data[current].size && data[current].size - n - META < MMAP_SIZE
      requires current + META + n !in free && (data[current].isFree <==> current in free)
      requires current in nodes && current + META + n in nodes && forall q :: q in free ==> q in nodes
      modifies `data, `hlink, `bins, `free, `mem, `numMeta, histogram
      ensures Histo()
      ensures data == old(data)[current + META + n := Data(old(data)[current].size - n - META, true)]
                               [current := Data(n, false)]
      ensures forall q :: q in free <==> (q in old(free) || q == current + META + n) && q != current
      ensures numMeta == old(numMeta) + 1
      ensures SameOutside(old(mem), mem, nodes)
    {
      hide Chain, HistoOK, SameOutside;
      ghost var m0 := mem;
      var remaining := data[current].size - n - META;
      var rest := current + META + n;
      HistoWrite(data, hlink, histogram[..], bins, free, rest, Data(remaining, true));
      SetData(rest, Data(remaining, true), nodes);
      ghost var m1 := mem;
      numMeta := numMeta + 1;
      AddNodeHisto(rest, nodes);
      SameTrans(m0, m1, mem, nodes, nodes, nodes);
      ghost var m2 := mem;
      RemoveNodeHisto(current, nodes);
      SameTrans(m0, m2, mem, nodes, nodes, nodes);
      ghost var m3 := mem;
      HistoWrite(data, hlink, histogram[..], bins, free, current, Data(n, false));
      SetData(current, Data(n, false), nodes);
      SameTrans(m0, m3, mem, nodes, nodes, nodes);
    }

    // ----- the end of the heap

    /** sbrk: move the break by `inc`, or fail when it would pass the limit. */
    method Sbrk(inc: int) returns (r: int)
      modifies `brk
      ensures if limit < old(brk) + inc then r == -1 && brk == old(brk) else r == old(brk) && brk == old(brk) + inc
    {
      if limit < brk + inc {
        return -1;
      }
      r := brk;
      brk := brk + inc;
    }

    /** create_metadata_sbrk */
    method CreateMetadata(size: nat, isFree: bool, ghost nodes: set<Ptr>) returns (p: Ptr)
      requires 0 < brk && (brk + META <= limit ==> brk in nodes)
      modifies `brk, `data, `link, `hlink, `mem, `numMeta
      ensures SameOutside(old(mem), mem, nodes)
      ensures if limit < old(brk) + META then
                && p == NULL && brk == old(brk) && data == old(data) && link == old(link) && hlink == old(hlink)
                && numMeta == old(numMeta)
              else
                && p == old(brk) && brk == old(brk) + META && data == old(data)[p := Data(size, isFree)]
                && link == old(link)[p := Link(NULL, NULL)] && hlink == old(hlink)[p := Link(NULL, NULL)]
                && numMeta == old(numMeta) + 1
    {
      p := Sbrk(META);
      if p == -1 {
        return NULL;
      }
      SetData(p, Data(size, isFree), nodes);
      SetHisto(p, Link(NULL, NULL), nodes);
      SetLink(p, Link(NULL, NULL), nodes);
      numMeta := numMeta + 1;
    }

    method SbrkWrapper(n: nat) returns (r: Ptr)
      requires Valid() && NoFit(View(), n) && 0 < n < MMAP_SIZE && n % 8 == 0
      modifies `brk, `data, `link, `hlink, `head, `end, `blocks, `bins, `free, `orphans, `mem, `numMeta, histogram
      ensures Valid()
      ensures MapView() == old(MapView())
      ensures Sys() == Grow(old(Sys()), n, limit).0 && r == Grow(old(Sys()), n, limit).1
      ensures SameOutside(old(mem), mem, Touched(old(blocks), old(brk), limit))
    {
      if end != NULL {
        ghost var last := |blocks| - 1;
        BlockFits(last);
        var wsize := data[end].size;
        if data[end].isFree {
          assert !Fits(View()[last], n);
          r := ExtendWilderness(n);
          return;
        }
      }
      r := AppendBlock(n);
    }

    /** The wilderness block is free but too small: obtain the difference. */
    method ExtendWilderness(n: nat) returns (r: Ptr)
      requires Valid() && 0 < n < MMAP_SIZE && n % 8 == 0 && blocks != []
      requires var b := View()[|blocks| - 1]; b.free && b.size < n
      modifies `brk, `data, `hlink, `bins, `free, `mem, histogram
      ensures Valid()
      ensures MapView() == old(MapView())
      ensures Sys() == Grow(old(Sys()), n, limit).0 && r == Grow(old(Sys()), n, limit).1
      ensures SameOutside(old(mem), mem, Nodes(blocks))
    {
      hide Under, Nodes, Chain, HistoOK, Layout, FreeIs, MapsOK, ViewOf, Distinct, Grow;
      ghost var last := |blocks| - 1;
      GrowExtends(Sys(), n, limit);
      BlockFits(last);
      ListFacts();
      ExtendState(blocks, data, free, Mapped(), Sys(), base, n);
      var newptr := Sbrk(n - data[end].size);
      if newptr == -1 {
        return NULL;
      }
      TakeLast(n, View()[last := Blk(end, n, false)]);
      r := end + META;
    }

    /** Hand out the last block, free until now, with `n` bytes, which makes the heap `h`. */
    method TakeLast(n: nat, ghost h: seq<Blk>)
      requires ListOK() && Histo() && end in data && end in free && data[end].isFree && end != NULL
               && (forall q :: q in free ==> q in blocks)
      requires var data' := data[end := Data(n, false)];
        FreeIs(free - {end}, blocks, data') && ViewOf(blocks, data') == h && MapsOK(Mapped(), data')
          && ViewOf(mmaps, data') == MapView()
      requires Layout(State(h, brk, orphans), base) && brk <= limit
      requires mmapedBlocks == |mmaps| && numMeta == |blocks| + |mmaps| + orphans
      modifies `data, `hlink, `bins, `free, `mem, histogram
      ensures Valid() && View() == h
      ensures MapView() == old(MapView())
      ensures SameOutside(old(mem), mem, Nodes(blocks))
    {
      hide Under, Nodes, Chain, HistoOK, Layout, FreeIs, MapsOK, ViewOf, Distinct;
      NodesHas(blocks);
      RemoveNodeHisto(end, Nodes(blocks));
      HistoWrite(data, hlink, histogram[..], bins, free, end, Data(n, false));
      SetData(end, Data(n, false), Nodes(blocks));
      FreeSame(old(free) - {end}, free, blocks, data);
    }

    method AppendBlock(n: nat) returns (r: Ptr)
      requires Valid() && 0 < n < MMAP_SIZE && n % 8 == 0
      requires blocks != [] ==> !View()[|blocks| - 1].free
      modifies `brk, `data, `link, `hlink, `head, `end, `blocks, `orphans, `mem, `numMeta
      ensures Valid()
      ensures MapView() == old(MapView())
      ensures Sys() == Grow(old(Sys()), n, limit).0 && r == Grow(old(Sys()), n, limit).1
      ensures SameOutside(old(mem), mem, Touched(old(blocks), old(brk), limit))
    {
      hide Under, Nodes, Chain, HistoOK, Layout, FreeIs, MapsOK, ViewOf, Distinct, InsertAt, Grow;
      GrowAppends(Sys(), n, limit);
      ListFacts();
      if brk + META <= limit {
        BreakState(blocks, data, free, Mapped(), Sys(), base, n);
      }
      var p := NewHeader(n);
      if p == NULL {
        return NULL;
      }
      var newptr := Sbrk(n);
      if newptr == -1 {
        return NULL;
      }
      PlaceLast(p, View() + [Blk(p, n, false)]);
      r := newptr;
    }

    /** Put the header `p` at the end of the list, which makes the heap `h`. */
    method PlaceLast(p: Ptr, ghost h: seq<Blk>)
      requires ListOK() && Histo() && p !in blocks && p != NULL && 0 < orphans
      requires FreeIs(free, InsertAt(blocks, |blocks|, p), data) && ViewOf(InsertAt(blocks, |blocks|, p), data) == h
      requires Layout(State(h, brk, orphans - 1), base) && brk <= limit && MapsOK(Mapped(), data)
      requires mmapedBlocks == |mmaps| && numMeta == |blocks| + |mmaps| + orphans
      modifies `link, `head, `end, `blocks, `orphans, `mem
      ensures Valid() && View() == h && orphans == old(orphans) - 1
      ensures MapView() == old(MapView())
      ensures SameOutside(old(mem), mem, Nodes(old(blocks)) + {p})
    {
      hide Under, Nodes, Chain, HistoOK, Layout, FreeIs, MapsOK, ViewOf, Distinct, InsertAt;
      NodesHas(blocks);
      AddNodeList(p, end, |blocks|, Nodes(blocks) + {p});
      orphans := orphans - 1;
    }

    /** A header at the break, not yet on the list: should the sbrk of its payload fail, it stays an orphan. */
    method NewHeader(n: nat) returns (p: Ptr)
      requires Valid() && 0 < n < MMAP_SIZE && n % 8 == 0
      modifies `brk, `data, `link, `hlink, `orphans, `mem, `numMeta
      ensures Valid() && View() == old(View())
      ensures MapView() == old(MapView())
      ensures if limit < old(brk) + META then p == NULL && brk == old(brk) && orphans == old(orphans)
              else p == old(brk) && brk == old(brk) + META && orphans == old(orphans) + 1
                   && data == old(data)[p := Data(n, false)]
      ensures SameOutside(old(mem), mem, Touched(blocks, old(brk), limit))
    {
      hide Under, Nodes, Chain, HistoOK, Layout, FreeIs, MapsOK, ViewOf, Distinct, InsertAt;
      ListFacts();
      if brk + META <= limit {
        BreakState(blocks, data, free, Mapped(), Sys(), base, n);
        FreshHeader(brk, Data(n, false));
      }
      p := CreateMetadata(n, false, Touched(blocks, brk, limit));
      if p != NULL {
        orphans := orphans + 1;
      }
    }

    // ----- allocation

    /** The search of smalloc: through the buckets from the size class of `n` on, each from its head. */
    method FindFit(n: nat) returns (r: Ptr)
      requires Valid() && n < MMAP_SIZE
      ensures r == NULL ==> NoFit(View(), n)
      ensures r != NULL ==> r in blocks && BestFit(View(), Idx(blocks, r), n)
    {
      var i := n / 1024;
      while i < BUCKETS
        invariant n / 1024 <= i <= BUCKETS
        invariant BinsBelow(data, bins, Bucket(n), i, n)
      {
        ghost var s, j := bins[i], 0;
        assert BinOK(data, hlink, histogram[i], s, i, free);
        var current := histogram[i];
        while current != NULL
          invariant 0 <= j <= |s| && current == At(s, j)
          invariant Below(data, s, j, n)
          decreases |s| - j
        {
          assert LinkedAt(hlink, s, j) && s[j] in s;
          if data[current].size >= n && data[current].isFree {
            FoundBest(n, i, j);
            return current;
          }
          current := hlink[current].next;
          j := j + 1;
        }
        i := i + 1;
      }
      SearchedAll(n);
      r := NULL;
    }

    lemma FoundBest(n: nat, i: nat, j: nat)
      requires Valid() && i < BUCKETS && j < |bins[i]| && Bucket(n) <= i
      requires bins[i][j] in data && n <= data[bins[i][j]].size
      requires BinsBelow(data, bins, Bucket(n), i, n) && Below(data, bins[i], j, n)
      ensures bins[i][j] in blocks && BestFit(View(), Idx(blocks, bins[i][j]), n)
    {
      var p := bins[i][j];
      assert BinOK(data, hlink, histogram[i], bins[i], i, free);
      assert p in bins[i] && p in free;
      forall m | 0 <= m < |blocks| && Fits(View()[m], n)
        ensures data[p].size <= View()[m].size
      {
        assert blocks[m] in blocks;
        FirstIsBest(data, hlink, histogram[..], bins, free, n, i, j, blocks[m]);
      }
    }

    lemma SearchedAll(n: nat)
      requires Valid() && BinsBelow(data, bins, Bucket(n), BUCKETS, n)
      ensures NoFit(View(), n)
    {
      forall m | 0 <= m < |blocks|
        ensures !Fits(View()[m], n)
      {
        assert blocks[m] in blocks;
        if data[blocks[m]].isFree {
          NoneFits(data, hlink, histogram[..], bins, free, n, blocks[m]);
        }
      }
    }

    // ----- mmapped blocks

    /** mmap: a page-aligned region not in use, or -1 exactly when it refuses. */
    method Mmap(len: nat) returns (p: int)
      requires 0 <= mapTop
      modifies `mapTop, `asked
      ensures asked == old(asked) + 1 && (p == -1 <==> replies(old(asked)) == Refused)
      ensures if p == -1 then mapTop == old(mapTop) else old(mapTop) <= p && p % 8 == 0 && mapTop == p + len
    {
      var reply := replies(asked);
      asked := asked + 1;
      match reply
      case Refused =>
        p := -1;
      case Granted(skipped) =>
        p := PageAbove(mapTop, skipped);
        mapTop := p + len;
    }

    /** Mappings lie above the sbrk area. */
    lemma MapsAbove()
      requires Valid()
      ensures 0 < limit <= mapTop
    {
      hide Chain, HistoOK, FreeIs;
      BrkPositive(Sys(), base);
    }

    method MmapWrapper(n: nat) returns (r: Ptr)
      requires Valid() && MMAP_SIZE <= n
      modifies `data, `mapTop, `asked, `mmaps, `mmapedBlocks, `mmapedBytes, `numMeta, `mem
      ensures Valid() && asked == old(asked) + 1
      ensures r == NULL <==> replies(old(asked)) == Refused
      ensures Sys() == old(Sys()) && blocks == old(blocks)
      ensures r == NULL ==> MapView() == old(MapView()) && mem == old(mem)
      ensures r != NULL ==> MapView() == old(MapView()) + [Blk(r - META, n, false)] && mmaps == old(mmaps) + [r - META]
      ensures Kept(old(mem), mem, old(View() + MapView()), NULL)
    {
      hide Under, Nodes, Chain, HistoOK, Layout, FreeIs, MapsOK, ViewOf, Kept, SameOutside;
      KeptNow(mem, View() + MapView(), NULL);
      ListFacts();
      Placement();
      MapsAbove();
      var p := Mmap(n + META);
      if p == -1 {
        return NULL;
      }
      MapAdded(old(Mapped()), data, p, n);
      AboveHeap(blocks, data, free, Sys(), base, limit, p, Data(n, false));
      HistoWrite(data, hlink, histogram[..], bins, free, p, Data(n, false));
      SetData(p, Data(n, false), {p});
      AboveKept(old(mem), mem, old(View()), old(MapView()), base, brk, limit, p, NULL);
      numMeta := numMeta + 1;
      mmapedBlocks := mmapedBlocks + 1;
      mmapedBytes := mmapedBytes + n;
      mmaps := mmaps + [p];
      r := p + META;
    }

    /** deallocate_mmap */
    method DeallocateMmap(p: Ptr, ghost k: nat)
      requires Valid() && k < |mmaps| && mmaps[k] == p
      modifies `mmaps, `mmapedBlocks, `mmapedBytes, `numMeta
      ensures Valid()
      ensures MapView() == RemoveAt(old(MapView()), k)
    {
      hide Chain, HistoOK, Layout, FreeIs, MapsOK, ViewOf, RemoveAt;
      MapRemoved(Mapped(), data, k);
      mmapedBlocks := mmapedBlocks - 1;
      mmapedBytes := mmapedBytes - data[p].size;
      numMeta := numMeta - 1;
      mmaps := RemoveAt(mmaps, k);
    }

    // ----- smalloc

    method Smalloc(size: Size) returns (r: Ptr)
      requires Valid()
      modifies this, histogram
      ensures Valid()
      ensures Outcome(old(Sys()), old(MapView()), Sys(), MapView(), RoundUp(size), limit, r)
      // Below 131072 bytes, free blocks and the room above the break decide.
      ensures 0 < RoundUp(size) < MMAP_SIZE ==> (r != NULL <==> Servable(old(Sys()), RoundUp(size), limit))
      // From 131072 bytes on, mmap decides.
      ensures asked == old(asked) + if MMAP_SIZE <= RoundUp(size) <= MAX_REQUEST then 1 else 0
      ensures asked != old(asked) ==> (r == NULL <==> replies(old(asked)) == Refused)
      ensures old(brk) <= brk
      ensures Kept(old(mem), mem, old(View() + MapView()), NULL)
    {
      hide Chain, HistoOK, Histo, FreeIs, MapsOK, ViewOf, Nodes, Kept, SameOutside, RoundUp, BlocksOK, BestFit, Carve,
        Grow, Placed, ListOK, Servable;
      var n := RoundUp(size);
      RoundedIsAligned(size);
      if n == 0 || n > MAX_REQUEST {
        KeptNow(mem, View() + MapView(), NULL);
        return NULL;
      }
      if n >= MMAP_SIZE {
        r := MmapWrapper(n);
        return;
      }
      var current := FindFit(n);
      if current == NULL {
        ListFacts();
        Placement();
        r := SbrkWrapper(n);
        GrowLayout(old(Sys()), base, n, limit);
        HeadersKept(old(mem), mem, old(View()), old(MapView()), base, old(brk), limit, old(blocks), NULL);
      } else {
        r := TakeFit(current, n, Idx(blocks, current));
      }
      RequestSucceeds(old(Sys()), Sys(), base, n, limit, r);
    }

    /** Hand out the free block found, split when the rest is worth it. */
    method TakeFit(current: Ptr, n: nat, ghost k: nat) returns (r: Ptr)
      requires Valid() && k < |blocks| && current == blocks[k] && BestFit(View(), k, n) && 0 < n && n % 8 == 0
      modifies `data, `link, `hlink, `head, `end, `blocks, `bins, `free, `mem, `numMeta, histogram
      ensures Valid()
      ensures View() == Carve(old(View()), k, n) && r == old(View())[k].Payload()
      ensures MapView() == old(MapView())
      ensures Kept(old(mem), mem, old(View() + MapView()), NULL)
    {
      hide Chain, HistoOK, Layout, FreeIs, MapsOK, SameBut, SameOutside, Kept, ViewOf, Nodes, Placed, BlocksOK, Histo,
        ListOK;
      BlockFits(k);
      Placement();
      if data[current].size - n < SPLIT {
        MarkUsed(current, k);
        SameButWiden(old(mem), mem, Nodes(old(blocks)), Nodes(old(blocks)), current, old(View())[k].End());
        r := current + META;
      } else {
        r := SplitBlock(current, n, k);
        HeaderInside(old(mem), mem, Nodes(old(blocks)), current + META + n, current, old(View())[k].End());
        r := r + META;
      }
      RegionKept(old(mem), mem, old(View()), old(MapView()), base, brk, limit, old(blocks), k, k, NULL);
    }

    // ----- sfree

    /** Whether `p` is an argument that sfree accepts: null, or the payload of a block, released already or not. */
    ghost predicate Freeable(p: Ptr)
      reads this
    {
      p != NULL ==> p - META in data && (p - META in blocks || p - META in mmaps)
    }

    /** The sizes involved in releasing the block at `h` stay within the histogram. */
    ghost predicate MergeFits(p: Ptr)
      reads this
    {
      p in blocks ==> MergedSize(View(), Idx(blocks, p)) < MMAP_SIZE
    }

    method Sfree(p: Ptr)
      requires Valid() && Freeable(p)
      requires p != NULL && !data[p - META].isFree ==> MergeFits(p - META)
      modifies this, histogram
      ensures Valid()
      ensures brk == old(brk) && orphans == old(orphans) && asked == old(asked)
      ensures if p == NULL || old(data)[p - META].isFree then View() == old(View()) && MapView() == old(MapView())
              else if p - META in old(blocks) then
                // The block and its free neighbours are one free block afterwards.
                var k := Idx(old(blocks), p - META);
                View() == Free(old(View()), k) && Coalesced(old(View()), View(), k) && MapView() == old(MapView())
              else View() == old(View()) && p - META in old(mmaps)
                   && MapView() == RemoveAt(old(MapView()), Idx(old(mmaps), p - META))
      ensures Kept(old(mem), mem, old(View() + MapView()), NULL)
    {
      hide Chain, HistoOK, Histo, ListOK, FreeIs, Nodes, Kept, Free, ViewOf, Coalesced;
      KeptNow(mem, View() + MapView(), NULL);
      if p == NULL {
        return;
      }
      var meta := p - META;
      if data[meta].isFree {
        return;
      }
      if data[meta].size >= MMAP_SIZE {
        assert meta !in blocks by {
          if meta in blocks { BlockFits(Idx(blocks, meta)); }
        }
        DeallocateMmap(meta, Idx(mmaps, meta));
        return;
      }
      assert meta in blocks by {
        assert meta in mmaps ==> MapOK(BlkOf(data, meta), limit, mapTop);
      }
      ReleaseCoalesces(View(), Idx(blocks, meta));
      FreeBlock(meta, Idx(blocks, meta));
    }

    /** sfree of a heap block: add it to the histogram, unite it with its right and then its left neighbour. */
    method FreeBlock(p: Ptr, ghost k: nat)
      requires Valid() && k < |blocks| && p == blocks[k] && !data[p].isFree && MergedSize(View(), k) < MMAP_SIZE
      modifies `data, `link, `hlink, `end, `blocks, `bins, `free, `mem, `numMeta, histogram
      ensures Valid()
      ensures View() == Free(old(View()), k) && MapView() == old(MapView())
      ensures Kept(old(mem), mem, old(View() + MapView()), NULL)
    {
      hide Chain, HistoOK, Layout, FreeIs, MapsOK, Unite, SameOutside, Kept, BlocksOK, ViewOf, Release;
      ghost var h, ps := View(), blocks;
      Placement();
      MarkFree(p, k);
      ghost var m1 := mem;
      FreeSteps(h, base, brk, k);
      UniteRight(p, k);
      ghost var m2 := mem;
      assert View() == Unite(Release(h, k), k);
      LinkFacts(k);
      ghost var ps2 := blocks;
      var prev := link[p].prev;
      UniteRight(prev, k - 1);
      if ps2 != ps { NodesRemove(ps, k + 1); }
      NodesTouched(ps, brk, limit);
      SameTrans(old(mem), m1, m2, Nodes(ps), Nodes(ps), Touched(ps, brk, limit));
      SameTrans(old(mem), m2, mem, Touched(ps, brk, limit), Nodes(ps2), Touched(ps, brk, limit));
      HeadersKept(old(mem), mem, h, old(MapView()), base, brk, limit, ps, NULL);
    }

    // ----- srealloc

    /** memmove; it must not write over the header of a live block. */
    method MemMove(dst: int, src: int, n: nat)
      requires forall p :: p in blocks || p in mmaps ==> p + META <= dst || dst + n <= p
      modifies `mem
      ensures Moved(old(mem), mem, dst, src, n)
    {
      hide Carried, SameBeyond, Copied;
      CopiedIs(mem, dst, src, n);
      mem := Copied(mem, dst, src, n);
    }

    /** A range inside the payload of a block meets no live header and no other payload in use. */
    lemma ClearRange(j: nat, lo: int, hi: int)
      requires Valid() && j < |View() + MapView()|
      requires (View() + MapView())[j].Payload() <= lo <= hi <= (View() + MapView())[j].End()
      ensures forall p :: p in blocks || p in mmaps ==> p + META <= lo || hi <= p
      ensures forall x :: lo <= x < hi ==> !Held(View() + MapView(), x, (View() + MapView())[j].addr)
    {
      var h := View() + MapView();
      AllApart();
      RangeApart(h, j, lo, hi);
      forall p | p in blocks || p in mmaps
        ensures p + META <= lo || hi <= p
      {
        if p in blocks {
          assert h[Idx(blocks, p)].addr == p;
        } else {
          assert h[|blocks| + Idx(mmaps, p)].addr == p;
        }
      }
    }

    lemma AllApart()
      requires Valid()
      ensures PairwiseApart(View() + MapView())
      ensures forall i :: 0 <= i < |View() + MapView()| ==> (View() + MapView())[i].size >= 0
    {
      var h, v, w := View() + MapView(), View(), MapView();
      Placement();
      forall i | 0 <= i < |h|
        ensures h[i].size >= 0
        ensures if i < |v| then h[i] == v[i] && h[i].End() <= limit else h[i] == w[i - |v|] && limit <= h[i].addr
      {
        if i < |v| {
          assert BlockOK(v[i], base, brk);
        } else {
          assert mmaps[i - |v|] in mmaps;
        }
      }
    }

    method UniteSrealloc(p: Ptr, with: Ptr, secondTime: bool, ghost i: nat, ghost w: int)
      requires Valid() && i < |blocks| && p == blocks[i] && (secondTime <==> data[p].isFree)
      requires -1 <= w < |blocks| && with == At(blocks, w)
      requires var h := Release(View(), i);
        Mergeable(h, w) ==> h[w].size + META + h[w + 1].size < MMAP_SIZE
      modifies `data, `link, `hlink, `end, `blocks, `bins, `free, `mem, `numMeta, histogram
      ensures Valid()
      ensures MapView() == old(MapView())
      ensures View() == Unite(Release(old(View()), i), w)
      ensures blocks == if Mergeable(Release(old(View()), i), w) then RemoveAt(old(blocks), w + 1) else old(blocks)
      ensures with != p ==> p in data && data[p] == old(data)[p].(isFree := true)
      ensures SameOutside(old(mem), mem, Nodes(old(blocks)))
    {
      hide Chain, HistoOK, Layout, FreeIs, MapsOK, Unite, SameOutside;
      ghost var nodes := Nodes(blocks);
      BlockFits(i);
      if !secondTime {
        MarkFree(p, i);
      } else {
        SetData(p, data[p].(isFree := true), nodes);
        assert data == old(data);
        assert View() == Release(old(View()), i);
      }
      ghost var m1 := mem;
      UniteRight(with, w);
      SameTrans(old(mem), m1, mem, nodes, nodes, nodes);
    }

    /** Split the used block `q` when what it has beyond `n` bytes is worth a block. */
    method TrimBlock(q: Ptr, n: nat, ghost j: nat) returns (r: Ptr)
      requires Valid() && j < |blocks| && q == blocks[j] && !data[q].isFree && 0 < n <= data[q].size && n % 8 == 0
      modifies `data, `link, `hlink, `head, `end, `blocks, `bins, `free, `mem, `numMeta, histogram
      ensures Valid() && r == q
      ensures MapView() == old(MapView())
      ensures View() == Carve(old(View()), j, n)
      ensures SameBut(old(mem), mem, Nodes(old(blocks)), q + META + n, old(View())[j].End())
    {
      hide Chain, HistoOK, Layout, FreeIs, MapsOK;
      BlockFits(j);
      r := q;
      if data[q].size - n >= SPLIT {
        r := SplitBlock(q, n, j);
        HeaderInside(old(mem), mem, Nodes(old(blocks)), q + META + n, q + META + n, old(View())[j].End());
      }
    }

    /** remove_node_histo; is_free = false; split if the rest is worth it. */
    method ClaimAndTrim(q: Ptr, n: nat, ghost j: nat) returns (r: Ptr)
      requires Valid() && j < |blocks| && q == blocks[j] && data[q].isFree && 0 < n <= data[q].size && n % 8 == 0
      modifies `data, `link, `hlink, `head, `end, `blocks, `bins, `free, `mem, `numMeta, histogram
      ensures Valid() && r == q
      ensures MapView() == old(MapView())
      ensures View() == Carve(old(View()), j, n)
      ensures SameBut(old(mem), mem, Nodes(old(blocks)), q + META + n, old(View())[j].End())
    {
      hide Chain, HistoOK, Layout, FreeIs, MapsOK, SameBut, SameOutside, Carve, Histo, ListOK, Nodes, ViewOf;
      ghost var nodes, lo, hi := Nodes(blocks), q + META + n, View()[j].End();
      CarveMarked(View(), j, n);
      BlockFits(j);
      MarkUsed(q, j);
      ghost var m1 := mem;
      r := TrimBlock(q, n, j);
      SameButWiden(old(mem), m1, nodes, nodes, lo, hi);
      SameButTrans(old(mem), m1, mem, nodes, lo, hi);
    }

    /** Move `len` bytes to the front of the free block `q` and hand it out for `n` bytes. */
    method ShiftAndTrim(q: Ptr, src: int, len: nat, n: nat, ghost j: nat) returns (r: Ptr, ghost moved: Mem)
      requires Valid() && j < |blocks| && q == blocks[j] && data[q].isFree && 0 < n <= data[q].size && n % 8 == 0
               && len <= data[q].size
      modifies `data, `link, `hlink, `head, `end, `blocks, `bins, `free, `mem, `numMeta, histogram
      ensures Valid() && r == q
      ensures MapView() == old(MapView())
      ensures View() == Carve(old(View()), j, n)
      ensures Moved(old(mem), moved, q + META, src, len)
      ensures SameBut(moved, mem, Nodes(old(blocks)), q + META + n, old(View())[j].End())
    {
      hide Chain, HistoOK, Layout, FreeIs, MapsOK, Carve, SameBut, Moved, Nodes;
      BlockFits(j);
      ClearRange(j, q + META, q + META + len);
      MemMove(q + META, src, len);
      moved := mem;
      r := ClaimAndTrim(q, n, j);
    }

    /** Block `i` of the heap `h`, with memory `m`, has been united into the
      * free block `q`: move its payload and hand `q` out. */
    method ShiftUnited(q: Ptr, src: int, len: nat, n: nat, ghost j: nat, ghost m: Mem, ghost h: seq<Blk>,
                       ghost ps: seq<Ptr>, ghost a: nat, ghost b: nat, ghost i: nat)
      returns (r: Ptr)
      requires Valid() && j < |blocks| && q == blocks[j] && data[q].isFree && 0 < n <= data[q].size && n % 8 == 0
               && len <= data[q].size
      requires Placed(h, MapView(), base, brk, limit) && Spans(h, ps, View(), blocks, a, b, i, j)
      requires SameOutside(m, mem, Nodes(ps)) && src == h[i].Payload() && h[i].size <= len && h[i].size < n
      modifies `data, `link, `hlink, `head, `end, `blocks, `bins, `free, `mem, `numMeta, histogram
      ensures Valid() && r == q
      ensures MapView() == old(MapView())
      ensures View() == Carve(old(View()), j, n)
      ensures Carried(m, mem, q + META, src, h[i].size)
      ensures Kept(m, mem, h + MapView(), h[i].addr)
    {
      hide Chain, HistoOK, Layout, FreeIs, MapsOK, Carve, SameOutside, SameBut, Kept, BlocksOK, Placed, Spans, Nodes,
        Moved, ViewOf, Carried;
      BlockFits(j);
      Placement();
      ghost var m1, h1, ps1 := mem, View(), blocks;
      ghost var m2;
      r, m2 := ShiftAndTrim(q, src, len, n, j);
      SpanKept(m, m1, m2, mem, h, MapView(), base, brk, limit, ps, h1, ps1, a, b, i, j, n, len);
    }

    /** b. Merge with the free block on the left and move the payload down. */
    method ReallocLeft(p: Ptr, prev: Ptr, n: nat, ghost i: nat) returns (r: Ptr)
      requires Valid() && 0 < i < |blocks| && p == blocks[i] && prev == blocks[i - 1] && !data[p].isFree && 0 < n
               && n % 8 == 0
      requires PathOf(View(), i, n) == MergeLeft && ReallocFits(View(), i, n) && n < MMAP_SIZE
      modifies `data, `link, `hlink, `head, `end, `blocks, `bins, `free, `mem, `numMeta, histogram
      ensures Valid() && MapView() == old(MapView()) && r == prev + META
      ensures var (u, j) := United(old(View()), i, MergeLeft);
        0 <= j < |u| && View() == Carve(u, j, n) && r == u[j].Payload()
      ensures Carried(old(mem), mem, r, p + META, old(View())[i].size)
      ensures Kept(old(mem), mem, old(View() + MapView()), p)
    {
      hide Chain, HistoOK, Layout, FreeIs, MapsOK, Carve, Unite, SameOutside, Kept, BlocksOK, Placed, Addresses, Nodes,
           Mergeable, Release, United, PathOf, ReallocFits, SpanOf, ViewOf, Carried, Spans;
      ghost var h, ps := View(), blocks;
      BlockFits(i);
      BlockFits(i - 1);
      Placement();
      UnitedFacts(h, base, brk, i, n);
      LeftFacts(h, base, brk, i, n);
      UniteLeft(p, prev, n, i);
      var len: nat := Min(data[p].size, data[prev].size);
      r := ShiftUnited(prev, p + META, len, n, i - 1, old(mem), h, ps, i - 1, i, i);
      r := r + META;
    }

    /** The merge of case b. */
    method UniteLeft(p: Ptr, prev: Ptr, n: nat, ghost i: nat)
      requires Valid() && 0 < i < |blocks| && p == blocks[i] && prev == blocks[i - 1] && !data[p].isFree
      requires PathOf(View(), i, n) == MergeLeft && ReallocFits(View(), i, n) && n < MMAP_SIZE
      modifies `data, `link, `hlink, `end, `blocks, `bins, `free, `mem, `numMeta, histogram
      ensures Valid() && MapView() == old(MapView())
      ensures (View(), i - 1) == United(old(View()), i, MergeLeft)
      ensures Spans(old(View()), old(blocks), View(), blocks, i - 1, i, i, i - 1)
      ensures blocks[i - 1] == prev && prev in data && data[prev].isFree && n <= data[prev].size
      ensures p in data && data[p].size == old(data)[p].size <= data[prev].size
      ensures SameOutside(old(mem), mem, Nodes(old(blocks)))
    {
      hide Chain, HistoOK, Layout, FreeIs, MapsOK, Unite, SameOutside, BlocksOK, Placed, Addresses, Nodes,
           Mergeable, Release, United, PathOf, ReallocFits, SpanOf, ViewOf, Spans;
      ghost var h, ps := View(), blocks;
      BlockFits(i);
      Placement();
      UnitedFacts(h, base, brk, i, n);
      LeftFacts(h, base, brk, i, n);
      UniteSrealloc(p, prev, false, i, i - 1);
      NodesRemove(ps, i);
      BlockFits(i - 1);
      Placement();
      UnitedSpans(h, ps, View(), blocks, base, brk, i - 1, i, i, i - 1, n, MergeLeft);
    }

    /** Block `i` of the heap `h` has been united into the free block
      * `q`, which starts with its payload: hand `q` out. */
    method KeepUnited(q: Ptr, n: nat, ghost j: nat, ghost m: Mem, ghost h: seq<Blk>, ghost ps: seq<Ptr>, ghost b: nat,
                      ghost i: nat)
      returns (r: Ptr)
      requires Valid() && j < |blocks| && q == blocks[j] && data[q].isFree && 0 < n <= data[q].size && n % 8 == 0
      requires Placed(h, MapView(), base, brk, limit) && Spans(h, ps, View(), blocks, i, b, i, j)
      requires SameOutside(m, mem, Nodes(ps)) && i < |h| && 0 <= h[i].size < n && h[i].addr == q
      modifies `data, `link, `hlink, `head, `end, `blocks, `bins, `free, `mem, `numMeta, histogram
      ensures Valid() && r == q
      ensures MapView() == old(MapView())
      ensures View() == Carve(old(View()), j, n)
      ensures Carried(m, mem, q + META, q + META, h[i].size)
      ensures Kept(m, mem, h + MapView(), h[i].addr)
    {
      hide Chain, HistoOK, Layout, FreeIs, MapsOK, Carve, SameOutside, SameBut, Kept, BlocksOK, Placed, Spans, Nodes,
        Moved, ViewOf, Carried;
      BlockFits(j);
      Placement();
      ghost var m1, h1, ps1, own := mem, View(), blocks, h[i].size;
      r := ClaimAndTrim(q, n, j);
      MovedNowhere(m1, q + META, own);
      SpanKept(m, m1, m1, mem, h, MapView(), base, brk, limit, ps, h1, ps1, i, b, i, j, n, own);
    }

    /** c. Merge with the free block on the right; the payload stays in place. */
    method ReallocRight(p: Ptr, n: nat, ghost i: nat) returns (r: Ptr)
      requires Valid() && i < |blocks| && p == blocks[i] && !data[p].isFree && 0 < n && n % 8 == 0
      requires PathOf(View(), i, n) == MergeRight && ReallocFits(View(), i, n) && n < MMAP_SIZE
      modifies `data, `link, `hlink, `head, `end, `blocks, `bins, `free, `mem, `numMeta, histogram
      ensures Valid() && MapView() == old(MapView()) && r == p + META
      ensures var (u, j) := United(old(View()), i, MergeRight);
        0 <= j < |u| && View() == Carve(u, j, n) && r == u[j].Payload()
      ensures Carried(old(mem), mem, r, p + META, old(View())[i].size)
      ensures Kept(old(mem), mem, old(View() + MapView()), p)
    {
      hide Chain, HistoOK, Layout, FreeIs, MapsOK, Carve, Unite, SameOutside, Kept, BlocksOK, Placed, Addresses, Nodes,
           Mergeable, Release, United, PathOf, ReallocFits, SpanOf, ViewOf, Carried, Spans;
      ghost var h, ps := View(), blocks;
      BlockFits(i);
      Placement();
      UnitedFacts(h, base, brk, i, n);
      RightFacts(h, base, brk, i, n);
      UniteSrealloc(p, p, false, i, i);
      NodesRemove(ps, i + 1);
      BlockFits(i);
      Placement();
      UnitedSpans(h, ps, View(), blocks, base, brk, i, i + 1, i, i, n, MergeRight);
      r := KeepUnited(p, n, i, old(mem), h, ps, i + 1, i);
      r := r + META;
    }

    /** d. Merge with the free blocks on both sides and move the payload down. */
    method ReallocBoth(p: Ptr, prev: Ptr, n: nat, ghost i: nat) returns (r: Ptr)
      requires Valid() && 0 < i < |blocks| && p == blocks[i] && prev == blocks[i - 1] && !data[p].isFree && 0 < n
               && n % 8 == 0
      requires PathOf(View(), i, n) == MergeBoth && ReallocFits(View(), i, n) && n < MMAP_SIZE
      modifies `data, `link, `hlink, `head, `end, `blocks, `bins, `free, `mem, `numMeta, histogram
      ensures Valid() && MapView() == old(MapView()) && r == prev + META
      ensures var (u, j) := United(old(View()), i, MergeBoth);
        0 <= j < |u| && View() == Carve(u, j, n) && r == u[j].Payload()
      ensures Carried(old(mem), mem, r, p + META, old(View())[i].size)
      ensures Kept(old(mem), mem, old(View() + MapView()), p)
    {
      hide Chain, HistoOK, Layout, FreeIs, MapsOK, Carve, Unite, SameOutside, Kept, BlocksOK, Placed, Addresses, Nodes,
           Mergeable, Release, United, PathOf, ReallocFits, SpanOf, ViewOf, Carried, Spans, Histo, ListOK;
      ghost var h, ps := View(), blocks;
      BlockFits(i);
      BlockFits(i - 1);
      Placement();
      UnitedFacts(h, base, brk, i, n);
      BothFacts(h, base, brk, i, n);
      UniteBoth(p, prev, i);
      BlockFits(i - 1);
      Placement();
      UnitedSpans(h, ps, View(), blocks, base, brk, i - 1, i + 1, i, i - 1, n, MergeBoth);
      var len: nat := Min(data[p].size, data[prev].size);
      r := ShiftUnitedUsed(prev, p + META, len, n, i - 1, old(mem), h, ps, i - 1, i + 1, i);
      r := r + META;
    }

    /** The two merges of case d. */
    method UniteBoth(p: Ptr, prev: Ptr, ghost i: nat)
      requires Valid() && 0 < i < |blocks| && p == blocks[i] && prev == blocks[i - 1] && !data[p].isFree
      requires var h1 := Release(View(), i);
        var h2 := Unite(h1, i);
        && Mergeable(h1, i) && h1[i].size + META + h1[i + 1].size < MMAP_SIZE
        && i < |h2| && h2[i].free && Release(h2, i) == h2 && Mergeable(h2, i - 1)
           && h2[i - 1].size + META + h2[i].size < MMAP_SIZE
      modifies `data, `link, `hlink, `end, `blocks, `bins, `free, `mem, `numMeta, histogram
      ensures Valid()
      ensures MapView() == old(MapView())
      ensures View() == Unite(Unite(Release(old(View()), i), i), i - 1)
      ensures blocks == RemoveAt(RemoveAt(old(blocks), i + 1), i) && Nodes(blocks) <= Nodes(old(blocks))
      ensures p in data && data[p].size == Unite(Release(old(View()), i), i)[i].size
      ensures SameOutside(old(mem), mem, Nodes(old(blocks)))
    {
      hide Chain, HistoOK, Layout, FreeIs, MapsOK, Unite, SameOutside, Nodes, Mergeable, Release, ViewOf, RemoveAt;
      ghost var ps := blocks;
      BlockFits(i);
      BlockFits(i - 1);
      UniteSrealloc(p, p, false, i, i);
      ghost var m1, ps1 := mem, blocks;
      RemovedAt(ps, i + 1, i);
      NodesRemove(ps, i + 1);
      BlockFits(i);
      BlockFits(i - 1);
      UniteSrealloc(p, prev, true, i, i - 1);
      NodesRemove(ps1, i);
      SameTrans(old(mem), m1, mem, Nodes(ps), Nodes(ps1), Nodes(ps));
    }

    lemma RemovedAt(s: seq<Ptr>, k: nat, i: nat)
      requires i < k < |s|
      ensures RemoveAt(s, k)[i] == s[i] && (0 < i ==> RemoveAt(s, k)[i - 1] == s[i - 1])
    {
    }

    /** Move `len` bytes to the payload of the block at `q`. */
    method MovePayload(q: Ptr, src: int, len: nat, ghost j: nat)
      requires Valid() && j < |blocks| && q == blocks[j] && q in data && len <= data[q].size
      modifies `mem
      ensures Valid() && Moved(old(mem), mem, q + META, src, len)
    {
      hide Chain, HistoOK, Layout, FreeIs, MapsOK, Moved, ViewOf, Held;
      BlockFits(j);
      ClearRange(j, q + META, q + META + len);
      MemMove(q + META, src, len);
    }

    /** As ShiftUnited, but the block is taken out of the histogram before the payload is moved. */
    method ShiftUnitedUsed(q: Ptr, src: int, len: nat, n: nat, ghost j: nat, ghost m: Mem, ghost h: seq<Blk>,
                           ghost ps: seq<Ptr>, ghost a: nat, ghost b: nat, ghost i: nat)
      returns (r: Ptr)
      requires Valid() && j < |blocks| && q == blocks[j] && data[q].isFree && 0 < n <= data[q].size && n % 8 == 0
               && len <= data[q].size
      requires Placed(h, MapView(), base, brk, limit) && Spans(h, ps, View(), blocks, a, b, i, j)
      requires SameOutside(m, mem, Nodes(ps)) && src == h[i].Payload() && h[i].size <= len && h[i].size < n
      modifies `data, `link, `hlink, `head, `end, `blocks, `bins, `free, `mem, `numMeta, histogram
      ensures Valid() && r == q
      ensures MapView() == old(MapView())
      ensures View() == Carve(old(View()), j, n)
      ensures Carried(m, mem, q + META, src, h[i].size)
      ensures Kept(m, mem, h + MapView(), h[i].addr)
    {
      hide Chain, HistoOK, Layout, FreeIs, MapsOK, Carve, SameOutside, SameBut, Kept, BlocksOK, Placed, Nodes, Moved,
        ViewOf, Carried, Addresses, Histo, ListOK;
      BlockFits(j);
      Placement();
      CarveMarked(View(), j, n);
      ghost var h1, ps1 := View(), blocks;
      ghost var m0 := mem;
      MarkUsed(q, j);
      ghost var m1 := mem;
      SameTrans(m, m0, m1, Nodes(ps), Nodes(ps1), Nodes(ps));
      BlockFits(j);
      MovePayload(q, src, len, j);
      ghost var m2 := mem;
      r := TrimBlock(q, n, j);
      SpanKept(m, m1, m2, mem, h, MapView(), base, brk, limit, ps, h1, ps1, a, b, i, j, n, len);
    }

    /** a. Reuse the block and cut off what is worth a block. */
    method ReallocReuse(p: Ptr, n: nat, ghost i: nat) returns (r: Ptr)
      requires Valid() && i < |blocks| && p == blocks[i] && !data[p].isFree && 0 < n && n + SPLIT <= data[p].size
               && n % 8 == 0
      modifies `data, `link, `hlink, `head, `end, `blocks, `bins, `free, `mem, `numMeta, histogram
      ensures Valid() && MapView() == old(MapView())
      ensures View() == Carve(old(View()), i, n) && r == p + META
      ensures Carried(old(mem), mem, r, p + META, n)
      ensures Kept(old(mem), mem, old(View() + MapView()), p)
    {
      hide Chain, HistoOK, Layout, FreeIs, MapsOK, Carve, SameOutside, SameBut, Kept, BlocksOK, Placed, Nodes, Moved,
        ViewOf, Carried, Addresses;
      BlockFits(i);
      Placement();
      ghost var m, h, ps := mem, View(), blocks;
      ghost var own := h[i].size;
      r := TrimBlock(p, n, i);
      MovedNowhere(m, p + META, own);
      SameNow(m, Nodes(ps));
      SpanSelf(h, ps, i);
      SpanKept(m, m, m, mem, h, MapView(), base, brk, limit, ps, h, ps, i, i, i, i, n, own);
      r := r + META;
    }

    /** The block is the wilderness: move the break. */
    method ReallocWilderness(p: Ptr, n: nat, ghost i: nat) returns (r: Ptr)
      requires Valid() && i < |blocks| && p == blocks[i] && p == end && i + 1 == |blocks| && !data[p].isFree
      requires data[p].size < n < MMAP_SIZE && n % 8 == 0
      modifies `brk, `data, `mem
      ensures Valid() && MapView() == old(MapView())
      ensures Sys() == Stretch(old(Sys()), i, n, limit).0 && r == Stretch(old(Sys()), i, n, limit).1
      ensures Carried(old(mem), mem, p + META, p + META, old(data)[p].size)
      ensures Kept(old(mem), mem, old(View() + MapView()), p) && Kept(old(mem), mem, old(View() + MapView()), NULL)
    {
      hide Chain, HistoOK, Layout, FreeIs, MapsOK, ViewOf, Distinct, Under, Nodes, SameOutside, Carried, Kept, Placed,
        Addresses, BlocksOK;
      BlockFits(i);
      ListFacts();
      Placement();
      KeptNow(mem, View() + MapView(), p);
      KeptNow(mem, View() + MapView(), NULL);
      MovedNowhere(mem, p + META, data[p].size);
      ExtendState(blocks, data, free, Mapped(), Sys(), base, n);
      var newptr := Sbrk(n - data[p].size);
      if newptr == -1 {
        return NULL;
      }
      HistoWrite(data, hlink, histogram[..], bins, free, end, Data(n, false));
      FreeSame(free - {end}, free, blocks, data[end := Data(n, false)]);
      SetData(end, Data(n, false), Nodes(blocks));
      NodesKept(old(mem), mem, old(View()), old(MapView()), base, old(brk), limit, blocks, i, p);
      NodesKept(old(mem), mem, old(View()), old(MapView()), base, old(brk), limit, blocks, i, NULL);
      r := p + META;
    }

    /** The blocks behind the values. */
    lemma BlockAt(b: Blk)
      requires Valid() && b in View() + MapView()
      ensures 0 < b.addr && 0 <= b.size && b.addr in data && data[b.addr] == Data(b.size, b.free)
      ensures if b.addr < limit then b.addr in blocks && View()[Idx(blocks, b.addr)] == b
              else b.addr in mmaps && MapView()[Idx(mmaps, b.addr)] == b
    {
      ListFacts();
      var i :| 0 <= i < |View() + MapView()| && (View() + MapView())[i] == b;
      if i < |blocks| {
        BlockFits(i);
        SameIndex(i);
      } else {
        assert mmaps[i - |blocks|] in mmaps;
      }
    }

    lemma SameIndex(i: nat)
      requires Valid() && i < |blocks|
      ensures blocks[i] in blocks && Idx(blocks, blocks[i]) == i
    {
    }

    lemma HeaderShows(p: Ptr)
      requires Valid() && (p in blocks || p in mmaps)
      ensures 0 < p && p in data && BlkOf(data, p) in View() + MapView() && (p in blocks ==> p < limit)
              && (p in mmaps ==> limit <= p)
    {
      Placement();
      ListFacts();
      if p in blocks {
        BlockFits(Idx(blocks, p));
        assert (View() + MapView())[Idx(blocks, p)] == BlkOf(data, p);
      } else {
        assert (View() + MapView())[|blocks| + Idx(mmaps, p)] == BlkOf(data, p);
      }
    }

    /** What a caller of smalloc can rely on. */
    lemma Served(s0: State, maps0: seq<Blk>, n: nat, r: Ptr)
      requires Valid() && Layout(s0, base) && Outcome(s0, maps0, Sys(), MapView(), n, limit, r)
      ensures Persist(s0.blocks + maps0, View() + MapView(), NULL)
      ensures r != NULL ==> Serves(View() + MapView(), r, n) && forall b :: b in s0.blocks + maps0 && !b.free ==>
              b.addr != r - META
    {
      AllApart();
      OutcomeServes(s0, maps0, Sys(), MapView(), base, n, limit, r);
    }

    /** memmove the payload of `p` into the block `c` at `newp`, then free `p`. */
    method CopyAndFree(p: Ptr, newp: Ptr, n: nat, ghost c: Blk) returns (ghost moved: Mem, ghost len: nat)
      requires Valid() && (p in blocks || p in mmaps) && p in data && !data[p].isFree && MergeFits(p)
      requires c in View() + MapView() && c.Payload() == newp && newp != NULL && n <= c.size
      modifies this, histogram
      ensures Valid()
      ensures len == Min(old(data)[p].size, n)
      ensures Moved(old(mem), moved, newp, p + META, len) && Kept(moved, mem, old(View() + MapView()), NULL)
      ensures forall x :: newp <= x < newp + len ==> !Held(old(View() + MapView()), x, c.addr)
      ensures brk == old(brk) && orphans == old(orphans) && asked == old(asked)
      ensures Gone(old(Sys()), old(MapView()), Sys(), MapView(), BlkOf(old(data), p), limit, newp)
    {
      hide Chain, HistoOK, Layout, FreeIs, MapsOK, ViewOf, Nodes, Moved, Kept, Held, Free;
      HeaderShows(p);
      BlockAt(BlkOf(data, p));
      var size: nat := Min(data[p].size, n);
      len := size;
      ghost var j :| 0 <= j < |View() + MapView()| && (View() + MapView())[j] == c;
      ClearRange(j, newp, newp + len);
      MemMove(newp, p + META, size);
      moved := mem;
      Sfree(p + META);
    }

    /** Get a new block, move the payload into it, free the old block. */
    method MoveBlock(p: Ptr, n: Size, ghost i: nat) returns (r: Ptr)
      requires Valid() && (p in blocks || p in mmaps) && p in data && n % 8 == 0
      requires MustMove(Sys(), MapView(), BlkOf(data, p), i, n, limit)
      modifies this, histogram
      ensures Valid()
      ensures asked == old(asked) + if MMAP_SIZE <= n then 1 else 0
      ensures asked != old(asked) ==> (r == NULL <==> replies(old(asked)) == Refused)
      ensures r != NULL ==> Carried(old(mem), mem, r, p + META, Min(old(data)[p].size, n))
      ensures Kept(old(mem), mem, old(View() + MapView()), if r == NULL then NULL else p)
      ensures MoveDone(old(Sys()), old(MapView()), Sys(), MapView(), BlkOf(old(data), p), i, n, limit, r)
    {
      hide Chain, HistoOK, Layout, FreeIs, MapsOK, ViewOf, Nodes, Kept, Held, Carried, Outcome, MustMove, MoveDone,
        Histo, ListOK, Servable;
      ghost var b, s0, maps0 := BlkOf(data, p), Sys(), MapView();
      MoveSize(s0, maps0, b, i, n, limit);
      HeaderShows(p);
      BlockAt(b);
      AllPositive();
      RoundedAlready(n);
      r := Smalloc(n);
      if r == NULL {
        FailedIsDone(s0, maps0, Sys(), MapView(), b, i, n, limit);
      } else {
        FinishMove(p, r, n, old(mem), s0, maps0, b, i);
      }
    }

    /** The second half of a move: `r` has been allocated in the state with blocks `s0` and `maps0` and memory `m`. */
    method FinishMove(p: Ptr, r: Ptr, n: nat, ghost m: Mem, ghost s0: State, ghost maps0: seq<Blk>, ghost b: Blk,
                      ghost i: nat)
      requires Valid() && r != NULL && b.addr == p && Layout(s0, base) && MustMove(s0, maps0, b, i, n, limit)
      requires (forall d :: d in s0.blocks + maps0 ==> 0 < d.addr) && 0 <= b.size
      requires Outcome(s0, maps0, Sys(), MapView(), n, limit, r) && Kept(m, mem, s0.blocks + maps0, NULL)
      modifies this, histogram
      ensures Valid() && asked == old(asked)
      ensures Carried(m, mem, r, b.Payload(), Min(b.size, n))
      ensures Kept(m, mem, s0.blocks + maps0, p)
      ensures MoveDone(s0, maps0, Sys(), MapView(), b, i, n, limit, r)
    {
      hide Chain, HistoOK, Layout, FreeIs, MapsOK, ViewOf, Nodes, Moved, Kept, Held, Carried, Outcome, MoveDone, Gone,
        Histo, ListOK, MergedSize, PathOf;
      Served(s0, maps0, n, r);
      FitsAfter(s0, maps0, b, i, n, r);
      AllPositive();
      ghost var m1, all1, s1, maps1 := mem, View() + MapView(), Sys(), MapView();
      ghost var c :| c in all1 && !c.free && c.Payload() == r && n <= c.size;
      ghost var m2, len := CopyAndFree(p, r, n, c);
      MoveKept(m, m1, m2, mem, s0.blocks + maps0, all1, b, c, len);
      GoneIsDone(s0, maps0, s1, maps1, Sys(), MapView(), b, i, n, limit, r);
    }

    lemma AllPositive()
      requires Valid()
      ensures forall b :: b in View() + MapView() ==> 0 < b.addr
    {
      forall b | b in View() + MapView()
        ensures 0 < b.addr
      {
        BlockAt(b);
      }
    }

    /** After the allocation the old block `b` is still there and can be released. */
    lemma FitsAfter(s0: State, maps0: seq<Blk>, b: Blk, i: nat, n: nat, r: Ptr)
      requires Valid() && Layout(s0, base) && Outcome(s0, maps0, Sys(), MapView(), n, limit, r) && 0 < n <= MAX_REQUEST
      requires MustMove(s0, maps0, b, i, n, limit) && b.addr != NULL
               && Persist(s0.blocks + maps0, View() + MapView(), NULL)
      ensures b in View() + MapView() && b.addr in data && data[b.addr].size == b.size && data[b.addr].isFree == b.free
              && MergeFits(b.addr)
      ensures (b.addr in blocks <==> b.addr < limit) && (b.addr in mmaps <==> limit <= b.addr)
    {
      BlockAt(b);
      HeaderShows(b.addr);
      if b.addr < limit {
        OutcomeFits(s0, maps0, Sys(), MapView(), base, n, limit, r, i, Idx(blocks, b.addr));
      }
    }

    /** b to d. Merge with a neighbour, or both, if that makes room. */
    method ReallocGrow(p: Ptr, n: Size, ghost i: nat) returns (r: Ptr)
      requires Valid() && i < |blocks| && p == blocks[i] && !data[p].isFree && data[p].size < n < MMAP_SIZE
               && n % 8 == 0
      requires ReallocFits(View(), i, n)
      modifies this, histogram
      ensures Valid() && MapView() == old(MapView()) && asked == old(asked)
      ensures Realloc(old(Sys()), Sys(), i, n, limit, r)
      ensures r != NULL ==> Carried(old(mem), mem, r, p + META, old(data)[p].size)
      ensures Kept(old(mem), mem, old(View() + MapView()), if r == NULL then NULL else p)
    {
      hide Chain, HistoOK, Layout, FreeIs, MapsOK, ViewOf, Nodes, Kept, Carried, Under, Carve, Realloc, ReallocFits,
        United;
      BlockFits(i);
      LinkFacts(i);
      var prev, next := link[p].prev, link[p].next;
      if 0 < i { BlockFits(i - 1); }
      if i + 1 < |blocks| { BlockFits(i + 1); }
      if prev != NULL && data[prev].size + data[p].size + META >= n && data[prev].isFree {
        r := ReallocLeft(p, prev, n, i);
        MergesAre(old(Sys()), Sys(), i, n, limit, r, MergeLeft);
        return;
      }
      if next != NULL && data[next].size + data[p].size + META >= n && data[next].isFree {
        r := ReallocRight(p, n, i);
        MergesAre(old(Sys()), Sys(), i, n, limit, r, MergeRight);
        return;
      }
      if prev != NULL && next != NULL
         && data[prev].size + data[next].size + data[p].size + 2 * META >= n && data[next].isFree && data[prev].isFree {
        r := ReallocBoth(p, prev, n, i);
        MergesAre(old(Sys()), Sys(), i, n, limit, r, MergeBoth);
        return;
      }
      r := ReallocElse(p, n, i);
    }

    /** The wilderness is enlarged; any other block moves. */
    method ReallocElse(p: Ptr, n: Size, ghost i: nat) returns (r: Ptr)
      requires Valid() && i < |blocks| && p == blocks[i] && !data[p].isFree && data[p].size < n < MMAP_SIZE
               && n % 8 == 0
      requires PathOf(View(), i, n) == (if i + 1 == |blocks| then Wilderness else Move) && ReallocFits(View(), i, n)
      modifies this, histogram
      ensures Valid() && MapView() == old(MapView()) && asked == old(asked)
      ensures Realloc(old(Sys()), Sys(), i, n, limit, r)
      ensures r != NULL ==> Carried(old(mem), mem, r, p + META, old(data)[p].size)
      ensures Kept(old(mem), mem, old(View() + MapView()), if r == NULL then NULL else p)
    {
      hide Chain, HistoOK, Layout, FreeIs, MapsOK, ViewOf, Nodes, Kept, Carried, Under, PathOf, MergedSize;
      BlockFits(i);
      LinkFacts(i);
      if link[p].next == NULL && end == p {
        r := ReallocWilderness(p, n, i);
        return;
      }
      HeaderShows(p);
      MoveSmall(View(), i, n);
      r := MoveBlock(p, n, i);
    }

    /** The argument of srealloc is the payload of a live block. */
    ghost predicate Live(p: Ptr)
      reads this
    {
      (p in blocks || p in mmaps) && p in data && !data[p].isFree
    }

    /** What srealloc needs: merged blocks stay within the histogram, and no remainder is cut off an mmapped block. */
    ghost predicate Reallocatable(p: Ptr, n: Size)
      requires Live(p)
      reads this
    {
      if p in blocks then ReallocFits(View(), Idx(blocks, p), n)
      else n >= MMAP_SIZE || data[p].size - n < SPLIT
    }

    method Srealloc(oldp: Ptr, size: Size) returns (r: Ptr)
      requires Valid() && (oldp != NULL ==> Live(oldp - META))
      requires oldp != NULL && 0 < RoundUp(size) <= MAX_REQUEST ==> Reallocatable(oldp - META, RoundUp(size))
      modifies this, histogram
      ensures Valid() && old(brk) <= brk
      // Which heap results.
      ensures var n := RoundUp(size);
        var p := oldp - META;
        if n == 0 || n > MAX_REQUEST then r == NULL && Sys() == old(Sys()) && MapView() == old(MapView())
        else if oldp == NULL then Outcome(old(Sys()), old(MapView()), Sys(), MapView(), n, limit, r)
        else if n >= MMAP_SIZE then Remapped(old(Sys()), old(MapView()), Sys(), MapView(), BlkOf(old(data), p), n, r)
        else MapView() == old(MapView())
             && if p in old(blocks) then Realloc(old(Sys()), Sys(), Idx(old(blocks), p), n, limit, r)
                else r == oldp && Sys() == old(Sys())
      ensures r != NULL ==> Serves(View() + MapView(), r, RoundUp(size))
      // For a block of the heap and below 131072 bytes, the block and its neighbours, free blocks and the room above
      // the break decide; in this order, and with the break where it was when the block and its neighbours are enough.
      ensures oldp != NULL && oldp - META in old(blocks) && 0 < RoundUp(size) < MMAP_SIZE ==>
                var i := Idx(old(blocks), oldp - META);
                && (r != NULL <==> Reservable(old(Sys()), i, RoundUp(size), limit))
                && (FitsInPlace(old(View()), i, RoundUp(size)) ==> InPlace(old(Sys()), Sys(), i, RoundUp(size), r))
      // From 131072 bytes on, mmap decides.
      ensures asked == old(asked) + if MMAP_SIZE <= RoundUp(size) <= MAX_REQUEST then 1 else 0
      ensures asked != old(asked) ==> (r == NULL <==> replies(old(asked)) == Refused)
      // The payload comes along.
      ensures r != NULL && oldp != NULL ==>
                Carried(old(mem), mem, r, oldp, Min(old(data)[oldp - META].size, RoundUp(size)))
      // Every other payload is as it was; on failure this includes the old one.
      ensures Kept(old(mem), mem, old(View() + MapView()), if r == NULL || oldp == NULL then NULL else oldp - META)
    {
      hide Chain, HistoOK, Layout, FreeIs, MapsOK, ViewOf, Nodes, Kept, Carried, Outcome, Realloc, Remapped,
        ReallocFits, PathOf, MergedSize, Serves, Servable, Reservable, FitsInPlace, InPlace;
      LayoutNow();
      var n := RoundUp(size);
      RoundedIsAligned(size);
      if n == 0 || n > MAX_REQUEST {
        KeptNow(mem, View() + MapView(), NULL);
        return NULL;
      }
      RoundedAlready(n);
      if oldp == NULL {
        r := Smalloc(n);
        Served(old(Sys()), old(MapView()), n, r);
        return;
      }
      ghost var i := if oldp - META in blocks then Idx(blocks, oldp - META) else 0;
      LiveBlock(oldp - META, i, n);
      r := ReallocLive(oldp - META, n, i);
      if oldp - META in old(blocks) && n < MMAP_SIZE {
        ReallocSucceeds(old(Sys()), Sys(), base, i, n, limit, r);
      }
      ServedAgain(old(Sys()), old(MapView()), BlkOf(old(data), oldp - META), oldp - META in old(blocks), i, n, r);
    }

    lemma LayoutNow()
      requires Valid()
      ensures Layout(Sys(), base)
    {
    }

    /** The block of a live header. */
    lemma LiveBlock(p: Ptr, i: nat, n: Size)
      requires Valid() && Live(p) && (p in blocks ==> i == Idx(blocks, p))
      ensures var b := BlkOf(data, p);
        && b in View() + MapView() && !b.free && b.Payload() == p + META
        && (p in blocks ==> i < |View()| && View()[i] == b) && (p !in blocks ==> b in MapView() && MMAP_SIZE <= b.size)
    {
      hide Chain, HistoOK, Layout;
      HeaderShows(p);
      if p !in blocks {
        assert MapOK(BlkOf(data, p), limit, mapTop);
        assert MapView()[Idx(mmaps, p)] == BlkOf(data, p);
      }
    }

    /** Whichever way block `b` has been reallocated from the blocks `s0`
      * and `maps0`, there is a block of `n` bytes at `r`. */
    lemma ServedAgain(s0: State, maps0: seq<Blk>, b: Blk, inHeap: bool, i: nat, n: nat, r: Ptr)
      requires Layout(s0, base) && b in s0.blocks + maps0 && !b.free && 0 < n
      requires r != NULL ==>
                 if n >= MMAP_SIZE then Remapped(s0, maps0, Sys(), MapView(), b, n, r)
                 else if inHeap then i < |s0.blocks| && s0.blocks[i] == b && Realloc(s0, Sys(), i, n, limit, r)
                 else b in MapView() && MMAP_SIZE <= b.size && r == b.Payload()
      ensures r != NULL ==> Serves(View() + MapView(), r, n)
    {
      hide Layout, Realloc, Remapped, ViewOf;
      if r != NULL {
        if n >= MMAP_SIZE {
          RemappedServes(s0, maps0, Sys(), MapView(), b, n, r);
        } else if inHeap {
          ReallocServes(s0, Sys(), base, i, n, limit, r);
          ServesMore(View(), MapView(), r, n);
        } else {
          assert b in View() + MapView();
        }
      }
    }

    method ReallocLive(p: Ptr, n: Size, ghost i: nat) returns (r: Ptr)
      requires Valid() && Live(p) && 0 < n <= MAX_REQUEST && n % 8 == 0 && Reallocatable(p, n)
      requires p in blocks ==> i == Idx(blocks, p)
      modifies this, histogram
      ensures Valid() && old(brk) <= brk
      ensures if n >= MMAP_SIZE then Remapped(old(Sys()), old(MapView()), Sys(), MapView(), BlkOf(old(data), p), n, r)
              else MapView() == old(MapView())
                   && if p in old(blocks) then Realloc(old(Sys()), Sys(), i, n, limit, r)
                      else r == p + META && Sys() == old(Sys())
      ensures asked == old(asked) + if MMAP_SIZE <= n then 1 else 0
      ensures asked != old(asked) ==> (r == NULL <==> replies(old(asked)) == Refused)
      ensures r != NULL ==> Carried(old(mem), mem, r, p + META, Min(old(data)[p].size, n))
      ensures Kept(old(mem), mem, old(View() + MapView()), if r == NULL then NULL else p)
    {
      hide Chain, HistoOK, Layout, FreeIs, MapsOK, ViewOf, Nodes, Kept, Carried, Realloc, Remapped, PathOf, MergedSize;
      HeaderShows(p);
      ghost var b := BlkOf(data, p);
      BlockAt(b);
      if n >= MMAP_SIZE {
        r := MoveBlock(p, n, i);
        RemappedBreak(old(Sys()), old(MapView()), Sys(), MapView(), b, n, r);
        return;
      }
      LargeIsMapped(p);
      if data[p].size >= n {
        if data[p].size - n >= SPLIT {
          r := ReallocReuse(p, n, i);
          ReuseSplits(old(Sys()), Sys(), i, n, limit);
          return;
        }
        MovedNowhere(mem, p + META, n);
        KeptNow(mem, View() + MapView(), p);
        if p in blocks { ReuseStays(Sys(), i, n, limit); }
        return p + META;
      }
      r := ReallocGrow(p, n, i);
      ReallocBreak(old(Sys()), Sys(), base, i, n, limit, r);
    }

    /** The size tells where a live block comes from. */
    lemma LargeIsMapped(p: Ptr)
      requires Valid() && Live(p)
      ensures data[p].size >= MMAP_SIZE <==> p in mmaps
      ensures p in mmaps <==> p !in blocks
    {
      HeaderShows(p);
      if p in blocks {
        BlockFits(Idx(blocks, p));
      } else {
        assert MapOK(BlkOf(data, p), limit, mapTop);
      }
    }

    // ----- srealloc of an mmapped block to less than MMAP_SIZE bytes

    /** The fields of the allocator agree with these lists: what Valid() says of its own ghost fields. */
    ghost predicate InOrder(blocks: seq<Ptr>, bins: seq<seq<Ptr>>, free: set<Ptr>, mmaps: seq<Ptr>, orphans: nat)
      reads this, histogram
    {
      && Chain(link, blocks) && head == At(blocks, 0) && end == At(blocks, |blocks| - 1)
      && FreeIs(free, blocks, data)
      && histogram.Length == BUCKETS && HistoOK(data, hlink, histogram[..], bins, free)
      && Layout(State(ViewOf(blocks, data), brk, orphans), base) && brk <= limit
      && MapsOK(Maps(mmaps, limit, mapTop, mmapedBytes), data)
      && mmapedBlocks == |mmaps|
      && numMeta == |blocks| + |mmaps| + orphans
    }

    /** The fields of the allocator agree with some lists. */
    ghost predicate Consistent()
      reads this, histogram
    {
      exists blocks, bins, free, mmaps, orphans :: InOrder(blocks, bins, free, mmaps, orphans)
    }

    lemma ValidIsConsistent()
      requires Valid()
      ensures Consistent()
    {
      hide Chain, FreeIs, HistoOK, Layout, MapsOK;
      assert InOrder(blocks, bins, free, mmaps, orphans);
    }

    /** A header above the sbrk area that the histogram indexes is on no list. */
    lemma OutOfOrder(p: Ptr)
      requires Histo() && p in free && limit <= p
      ensures !Consistent()
    {
      hide InOrder;
      forall blocks', bins', free', mmaps', orphans'
        ensures !InOrder(blocks', bins', free', mmaps', orphans')
      {
        NotInOrder(p, blocks', bins', free', mmaps', orphans');
      }
    }

    lemma NotInOrder(p: Ptr, blocks': seq<Ptr>, bins': seq<seq<Ptr>>, free': set<Ptr>, mmaps': seq<Ptr>, orphans': nat)
      requires Histo() && p in free && limit <= p
      ensures !InOrder(blocks', bins', free', mmaps', orphans')
    {
      hide Chain, HistoOK, MapsOK;
      if InOrder(blocks', bins', free', mmaps', orphans') {
        HistoUnique(data, hlink, histogram[..], bins, free, bins', free', p);
        var k := Idx(blocks', p);
        LayoutBlock(State(ViewOf(blocks', data), brk, orphans'), base, k);
      }
    }

    /** split_block of an mmapped block, the remainder of which has a chain. */
    method SplitMapped(p: Ptr, n: nat)
      requires Valid() && p in mmaps && p in data && 0 < n && n % 8 == 0
      requires n + SPLIT <= data[p].size && data[p].size - n - META < MMAP_SIZE
      modifies `data, `link, `hlink, `end, `bins, `free, `mem, `numMeta, histogram
      ensures !Consistent()
      ensures p !in old(link) ==> head == old(head) && end == p + META + n
      ensures data == old(data)[p + META + n := Data(old(data)[p].size - n - META, true)][p := Data(n, false)]
    {
      hide Chain, HistoOK, Layout, MapsOK, ViewOf, Consistent, FreeIs;
      MappedAbove(p, p + META + n);
      ghost var nodes := free + {p, p + META + n};
      SplitData(p, n, nodes);
      LinkMapped(p, p + META + n, nodes);
      OutOfOrder(p + META + n);
    }

    /** add_node_list behind a header in a mapping. Its links are NULL until they are written to. */
    method LinkMapped(p: Ptr, rest: Ptr, ghost nodes: set<Ptr>)
      requires p in nodes && rest in nodes && p != rest
      modifies `link, `end, `mem
      ensures p !in old(link) ==> end == rest
    {
      var current := if p in link then link[p] else Link(NULL, NULL);
      SetLink(rest, Link(current.next, p), nodes);
      SetLink(p, current.(next := rest), nodes);
      if current.next == NULL {
        end := rest;
      } else if current.next in link {
        SetLink(current.next, link[current.next].(prev := rest), nodes + {current.next});
      }
    }

    /** The block last mapped. */
    lemma MappedAt(r: Ptr, n: nat)
      requires Valid() && r != NULL && MapView() != [] && MapView()[|MapView()| - 1] == Blk(r - META, n, false)
      ensures r - META in mmaps && r - META in data && data[r - META].size == n
    {
      hide Chain, HistoOK, Layout;
      var p := mmaps[|mmaps| - 1];
      assert p in mmaps;
      HeaderShows(p);
    }

    lemma MappedAbove(p: Ptr, q: Ptr)
      requires Valid() && p in mmaps && p <= q
      ensures limit <= p && p in data && !data[p].isFree && p !in free && q !in free && 0 < limit
    {
      hide HistoOK, Layout;
      HeaderShows(p);
      LayoutNow();
      BrkPositive(Sys(), base);
      assert MapOK(BlkOf(data, p), limit, mapTop);
      if q in blocks {
        HeaderShows(q);
      }
    }

    /** srealloc of the mmapped block at `p` to less than MMAP_SIZE bytes. When a
      * remainder is cut off that has no chain, add_node_histo would leave the array of
      * chains, and the method stops there with `inBounds` false. */
    method ReallocMapped(p: Ptr, n: Size) returns (r: Ptr, inBounds: bool)
      requires Valid() && p in mmaps && p in data && 0 < n < MMAP_SIZE && n % 8 == 0
      modifies this, histogram
      ensures inBounds <==> old(data)[p].size - n < SPLIT || old(data)[p].size - n - META < MMAP_SIZE
      ensures inBounds ==> r == p + META
      ensures inBounds && Consistent() <==> old(data)[p].size - n < SPLIT
      ensures old(data)[p].size - n < SPLIT ==>
                Valid() && Sys() == old(Sys()) && MapView() == old(MapView()) && mem == old(mem)
    {
      hide Chain, HistoOK, Layout, MapsOK, FreeIs, ViewOf, Consistent;
      if data[p].size - n >= SPLIT {
        if (data[p].size - n - META) / 1024 >= BUCKETS {
          return NULL, false;
        }
        SplitMapped(p, n);
        return p + META, true;
      }
      ValidIsConsistent();
      r, inBounds := p + META, true;
    }

    // ----- scalloc

    /** memset to zero; it must not write over the header of a live block. */
    method MemZero(dst: int, n: nat)
      requires forall p :: p in blocks || p in mmaps ==> p + META <= dst || dst + n <= p
      modifies `mem
      ensures SameBeyond(old(mem), mem, dst, n) && forall x :: dst <= x < dst + n ==> mem(x) == 0
    {
      hide Zeroed;
      ZeroedIs(mem, dst, n);
      mem := Zeroed(mem, dst, n);
    }

    method Scalloc(num: Size, size: Size) returns (r: Ptr)
      requires Valid()
      modifies this, histogram
      ensures Valid() && old(brk) <= brk
      ensures Outcome(old(Sys()), old(MapView()), Sys(), MapView(), RoundUp(Wrapped(num, size)), limit, r)
      // The product of the arguments, as size_t computes it, is the number of bytes set to zero.
      ensures r != NULL ==> forall x :: r <= x < r + Wrapped(num, size) ==> mem(x) == 0
      // There is room for num * size bytes exactly when the product does not wrap around.
      ensures r != NULL ==> (Cleared(r, Product(num, size)) <==> Product(num, size) < WORD)
      // It succeeds exactly when smalloc does.
      ensures 0 < RoundUp(Wrapped(num, size)) < MMAP_SIZE ==> (r != NULL <==>
              Servable(old(Sys()), RoundUp(Wrapped(num, size)), limit))
      ensures asked == old(asked) + if MMAP_SIZE <= RoundUp(Wrapped(num, size)) <= MAX_REQUEST then 1 else 0
      ensures asked != old(asked) ==> (r == NULL <==> replies(old(asked)) == Refused)
      ensures Kept(old(mem), mem, old(View() + MapView()), NULL)
    {
      hide Chain, HistoOK, Layout, FreeIs, MapsOK, ViewOf, Nodes, Kept, Outcome, Held, Serves, Product, Wrapped,
        Servable;
      WrappedIs(num, size);
      AllPositive();
      var n: Size := Wrapped(num, size);
      r := Smalloc(n);
      if r != NULL {
        RoundedIsAligned(n);
        RoomBelow(old(Sys()), old(MapView()), RoundUp(n), r, Product(num, size));
        ZeroNew(r, n, old(Sys()), old(MapView()), old(mem));
      }
    }

    /** A block in use at `r` has room for `n` bytes, and they are zero. */
    ghost predicate Cleared(r: Ptr, n: nat)
      reads this
    {
      Serves(View() + MapView(), r, n) && forall x :: r <= x < r + n ==> mem(x) == 0
    }

    /** After an allocation at `r` there is the room asked for, but never for as much as size_t cannot count. */
    lemma RoomBelow(s0: State, maps0: seq<Blk>, n: nat, r: Ptr, k: nat)
      requires Valid() && r != NULL && Layout(s0, base) && Outcome(s0, maps0, Sys(), MapView(), n, limit, r)
      ensures 0 < n && (k <= n ==> Serves(View() + MapView(), r, k))
      ensures WORD <= k ==> !Serves(View() + MapView(), r, k)
    {
      hide Chain, HistoOK, FreeIs, MapsOK, ViewOf, Outcome, Layout;
      var all := View() + MapView();
      var c := AllocatedAt(s0, maps0, n, r);
      AllApart();
      forall b | b in all && b.Payload() == r
        ensures b == c
      {
        var i :| 0 <= i < |all| && all[i] == b;
        var j :| 0 <= j < |all| && all[j] == c;
      }
    }

    /** The block allocated at `r`. */
    lemma AllocatedAt(s0: State, maps0: seq<Blk>, n: nat, r: Ptr) returns (c: Blk)
      requires Valid() && r != NULL && Layout(s0, base) && Outcome(s0, maps0, Sys(), MapView(), n, limit, r)
      ensures c in View() + MapView() && !c.free && c.Payload() == r && 0 < n <= c.size < WORD
    {
      hide Chain, HistoOK, FreeIs, MapsOK, ViewOf, Malloc, Layout;
      if n < MMAP_SIZE {
        MallocServes(s0, Sys(), base, n, limit, r);
        c :| c in View() && !c.free && c.Payload() == r && n <= c.size;
        var i :| 0 <= i < |View()| && View()[i] == c;
        LayoutNow();
        LayoutBlock(Sys(), base, i);
      } else {
        c := Blk(r - META, n, false);
        assert MapView()[|maps0|] == c;
      }
    }

    /** Zero the first `n` bytes of the block just allocated at `r`, in the state
      * after the blocks `s0` and `maps0` and the memory `m`. */
    method ZeroNew(r: Ptr, n: Size, ghost s0: State, ghost maps0: seq<Blk>, ghost m: Mem)
      requires Valid() && r != NULL && n <= RoundUp(n) && Layout(s0, base)
      requires forall d :: d in s0.blocks + maps0 && !d.free ==> d.addr != 0
      requires Outcome(s0, maps0, Sys(), MapView(), RoundUp(n), limit, r) && Kept(m, mem, s0.blocks + maps0, NULL)
      modifies `mem
      ensures Valid()
      ensures forall x :: r <= x < r + n ==> mem(x) == 0
      ensures Kept(m, mem, s0.blocks + maps0, NULL)
    {
      hide Chain, HistoOK, Layout, FreeIs, MapsOK, ViewOf, Nodes, Outcome, Held;
      Served(s0, maps0, RoundUp(n), r);
      ghost var all := View() + MapView();
      ghost var c :| c in all && !c.free && c.Payload() == r && RoundUp(n) <= c.size;
      ghost var j :| 0 <= j < |all| && all[j] == c;
      ClearRange(j, r, r + n);
      MemZero(r, n);
      forall x | Held(s0.blocks + maps0, x, NULL)
        ensures mem(x) == m(x)
      {
        HeldPersists(s0.blocks + maps0, all, x, NULL, c.addr);
      }
    }

    // ----- accounting

    method NumAllocatedBlocks() returns (count: int)
      requires Valid()
      ensures count == |View()| + |MapView()|
    {
      var current := head;
      count := 0;
      while current != NULL
        invariant 0 <= count <= |blocks| && current == At(blocks, count)
        decreases |blocks| - count
      {
        assert LinkedAt(link, blocks, count);
        current := link[current].next;
        count := count + 1;
      }
      count := count + mmapedBlocks;
    }

    method NumAllocatedBytes() returns (total: int)
      requires Valid()
      ensures total == TotalSize(View()) + TotalSize(MapView())
    {
      var current := head;
      total := 0;
      ghost var k := 0;
      while current != NULL
        invariant 0 <= k <= |blocks| && current == At(blocks, k)
        invariant total == TotalSize(View()[..k])
        decreases |blocks| - k
      {
        LinkFacts(k);
        BlockFits(k);
        assert View()[..k + 1] == View()[..k] + [View()[k]];
        TotalConcat(View()[..k], [View()[k]]);
        TotalOne(View()[k]);
        total := total + data[current].size;
        current := link[current].next;
        k := k + 1;
      }
      assert View()[..k] == View();
      total := total + mmapedBytes;
    }

    /** `_num_meta_data_bytes`. */
    method NumMetaDataBytes() returns (bytes: int)
      requires Valid()
      ensures bytes == META * (|View()| + |MapView()| + orphans)
    {
      bytes := numMeta * META;
    }

    /** The reported bytes add up to what was obtained from sbrk and mmap; headers and
      * blocks are in proportion exactly when no header was orphaned. */
    lemma Accounts()
      requires Valid()
      ensures TotalSize(View()) + TotalSize(MapView()) + META * (|View()| + |MapView()| + orphans)
           == (brk - base) + TotalSize(MapView()) + META * |MapView()|
      ensures numMeta * META == META * (|View()| + |MapView()|) <==> orphans == 0
    {
      ExtentTotal(View());
    }
  }
}
