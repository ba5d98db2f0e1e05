/** The size histogram as values: 128 chains of free headers, chain `i` holding the sizes with `size / 1024 == i`.
  *
  * `HistoOK` is the exactness invariant: the chains index precisely the set `free`, each header in
  * the chain of its size, every chain threaded consistently and ascending by size.
  */
module Histogram {
  import opened Basics
  import opened Links

  const BUCKETS: nat := 128

  datatype Data = Data(size: nat, isFree: bool)

  /** `t` is `s` without `p`. */
  ghost predicate Without(s: set<Ptr>, t: set<Ptr>, p: Ptr) {
    forall q :: q in t <==> q in s && q != p
  }

  /** `t` is `s` with `p`. */
  ghost predicate With(s: set<Ptr>, t: set<Ptr>, p: Ptr) {
    forall q :: q in t <==> q in s || q == p
  }

  function Bucket(size: nat): nat {
    size / 1024
  }

  ghost predicate Ascending(data: map<Ptr, Data>, s: seq<Ptr>) {
    && (forall i :: 0 <= i < |s| ==> s[i] in data)
    && (forall i, j :: 0 <= i < j < |s| ==> data[s[i]].size <= data[s[j]].size)
  }

  /** Chain `i` of the histogram: `head` is its first node and its nodes are the members of `free` of that size. */
  ghost predicate BinOK(data: map<Ptr, Data>, hlink: map<Ptr, Link>, head: Ptr, s: seq<Ptr>, i: nat, free: set<Ptr>)
    requires free <= data.Keys
  {
    && Chain(hlink, s)
    && head == At(s, 0)
    && (forall p :: p in s <==> p in free && Bucket(data[p].size) == i)
    && Ascending(data, s)
  }

  ghost predicate HistoOK(data: map<Ptr, Data>, hlink: map<Ptr, Link>, heads: seq<Ptr>, bins: seq<seq<Ptr>>,
                          free: set<Ptr>) {
    && |heads| == BUCKETS && |bins| == BUCKETS
    && free <= data.Keys
    && (forall p :: p in free ==> Bucket(data[p].size) < BUCKETS)
    && (forall i {:trigger BinOK(data, hlink, heads[i], bins[i], i, free)} :: 0 <= i < BUCKETS ==>
          BinOK(data, hlink, heads[i], bins[i], i, free))
  }

  /** The histogram does not notice a change to a header it does not index. */
  lemma HistoWrite(data: map<Ptr, Data>, hlink: map<Ptr, Link>, heads: seq<Ptr>, bins: seq<seq<Ptr>>, free: set<Ptr>,
                   p: Ptr, d: Data)
    requires HistoOK(data, hlink, heads, bins, free) && p !in free
    ensures HistoOK(data[p := d], hlink, heads, bins, free)
  {
    forall i | 0 <= i < BUCKETS
      ensures BinOK(data[p := d], hlink, heads[i], bins[i], i, free)
    {
      assert BinOK(data, hlink, heads[i], bins[i], i, free);
      assert forall k :: 0 <= k < |bins[i]| ==> bins[i][k] in bins[i];
    }
  }

  /** Nor to its links. */
  lemma HistoRelink(data: map<Ptr, Data>, hlink: map<Ptr, Link>, heads: seq<Ptr>, bins: seq<seq<Ptr>>, free: set<Ptr>,
                    p: Ptr, l: Link)
    requires HistoOK(data, hlink, heads, bins, free) && p !in free
    ensures HistoOK(data, hlink[p := l], heads, bins, free)
  {
    forall i | 0 <= i < BUCKETS
      ensures BinOK(data, hlink[p := l], heads[i], bins[i], i, free)
    {
      assert BinOK(data, hlink, heads[i], bins[i], i, free);
      BinFrame(data, hlink, hlink[p := l], heads[i], bins[i], i, free, free);
    }
  }

  /** Unlinking the header at position `k` of chain `b`. */
  lemma HistoRemove(data: map<Ptr, Data>, hlink: map<Ptr, Link>, hlink': map<Ptr, Link>, heads: seq<Ptr>,
                    bins: seq<seq<Ptr>>, free: set<Ptr>, b: nat, k: nat)
    requires HistoOK(data, hlink, heads, bins, free) && b < BUCKETS && k < |bins[b]|
    requires SplicedOut(hlink, hlink', bins[b], k)
    requires forall p :: p in hlink && p !in bins[b] ==> p in hlink' && hlink'[p] == hlink[p]
    ensures var s := RemoveAt(bins[b], k);
      HistoOK(data, hlink', heads[b := At(s, 0)], bins[b := s], free - {bins[b][k]})
  {
    var p := bins[b][k];
    var s := RemoveAt(bins[b], k);
    assert BinOK(data, hlink, heads[b], bins[b], b, free);
    assert p in bins[b];
    BinRemove(data, hlink, hlink', bins[b], b, free, k);
    forall i | 0 <= i < BUCKETS && i != b
      ensures BinOK(data, hlink', heads[i], bins[i], i, free - {p})
    {
      assert BinOK(data, hlink, heads[i], bins[i], i, free);
      BinFrame(data, hlink, hlink', heads[i], bins[i], i, free, free - {p});
    }
  }

  lemma BinRemove(data: map<Ptr, Data>, hlink: map<Ptr, Link>, hlink': map<Ptr, Link>, s: seq<Ptr>, b: nat,
                  free: set<Ptr>, k: nat)
    requires free <= data.Keys && k < |s|
    requires BinOK(data, hlink, At(s, 0), s, b, free)
    requires SplicedOut(hlink, hlink', s, k)
    ensures BinOK(data, hlink', At(RemoveAt(s, k), 0), RemoveAt(s, k), b, free - {s[k]})
  {
    ChainRemove(hlink, hlink', s, k);
    RemoveElements(s, k);
    AscendingRemove(data, s, k);
  }

  lemma AscendingRemove(data: map<Ptr, Data>, s: seq<Ptr>, k: nat)
    requires Ascending(data, s) && k < |s|
    ensures Ascending(data, RemoveAt(s, k))
  {
    var t := RemoveAt(s, k);
    assert forall i :: 0 <= i < k ==> t[i] == s[i];
    assert forall i :: k <= i < |t| ==> t[i] == s[i + 1];
  }

  /** Linking header `n` in at position `j` of its chain. */
  lemma HistoInsert(data: map<Ptr, Data>, hlink: map<Ptr, Link>, hlink': map<Ptr, Link>, heads: seq<Ptr>,
                    bins: seq<seq<Ptr>>, free: set<Ptr>, n: Ptr, j: nat)
    requires HistoOK(data, hlink, heads, bins, free)
    requires n != NULL && n in data && n !in free && Bucket(data[n].size) < BUCKETS
    requires j <= |bins[Bucket(data[n].size)]|
    requires var s := bins[Bucket(data[n].size)];
      && SplicedIn(hlink, hlink', s, j, n)
      && (forall p :: p in hlink && p != n && p !in s ==> p in hlink' && hlink'[p] == hlink[p])
      && (forall k :: 0 <= k < j ==> s[k] in data && data[s[k]].size <= data[n].size)
      && (forall k :: j <= k < |s| ==> s[k] in data && data[n].size <= data[s[k]].size)
    ensures var b := Bucket(data[n].size);
      var s := InsertAt(bins[b], j, n);
      HistoOK(data, hlink', heads[b := At(s, 0)], bins[b := s], free + {n})
  {
    var b := Bucket(data[n].size);
    var s := InsertAt(bins[b], j, n);
    assert BinOK(data, hlink, heads[b], bins[b], b, free);
    ChainInsert(hlink, hlink', bins[b], j, n);
    InsertElements(bins[b], j, n);
    AscendingInsert(data, bins[b], j, n);
    forall i | 0 <= i < BUCKETS && i != b
      ensures BinOK(data, hlink', heads[i], bins[i], i, free + {n})
    {
      assert BinOK(data, hlink, heads[i], bins[i], i, free);
      BinFrame(data, hlink, hlink', heads[i], bins[i], i, free, free + {n});
    }
  }

  lemma AscendingInsert(data: map<Ptr, Data>, s: seq<Ptr>, j: nat, n: Ptr)
    requires n in data && j <= |s|
    requires Ascending(data, s)
    requires forall k :: 0 <= k < j ==> data[s[k]].size <= data[n].size
    requires forall k :: j <= k < |s| ==> data[n].size <= data[s[k]].size
    ensures Ascending(data, InsertAt(s, j, n))
  {
    var t := InsertAt(s, j, n);
    assert forall i :: 0 <= i < j ==> t[i] == s[i];
    assert forall i :: j < i < |t| ==> t[i] == s[i - 1];
  }

  /** A chain keeps its place when a header of another size class joins or leaves the indexed set. */
  lemma BinFrame(data: map<Ptr, Data>, hlink: map<Ptr, Link>, hlink': map<Ptr, Link>, head: Ptr, s: seq<Ptr>, i: nat,
                 free: set<Ptr>, free': set<Ptr>)
    requires free <= data.Keys && free' <= data.Keys
    requires BinOK(data, hlink, head, s, i, free)
    requires forall p :: p in s ==> p in hlink' && hlink'[p] == hlink[p]
    requires forall p :: p in data && Bucket(data[p].size) == i ==> (p in free <==> p in free')
    ensures BinOK(data, hlink', head, s, i, free')
  {
    ChainFrame(hlink, hlink', s);
  }

  // ----- searching

  /** The first `j` headers of chain `s` are all smaller than `n`. */
  ghost predicate Below(data: map<Ptr, Data>, s: seq<Ptr>, j: int, n: int) {
    forall k :: 0 <= k < j && k < |s| ==> s[k] in data && data[s[k]].size < n
  }

  /** Chains `lo` up to `i` hold only headers smaller than `n`. */
  ghost predicate BinsBelow(data: map<Ptr, Data>, bins: seq<seq<Ptr>>, lo: int, i: int, n: int) {
    forall b {:trigger bins[b]} :: 0 <= lo <= b < i && b < |bins| ==> Below(data, bins[b], |bins[b]|, n)
  }

  /** The first large enough header in bucket order is a smallest large enough header. */
  lemma FirstIsBest(data: map<Ptr, Data>, hlink: map<Ptr, Link>, heads: seq<Ptr>, bins: seq<seq<Ptr>>, free: set<Ptr>,
                    n: nat, i: nat, j: nat, q: Ptr)
    requires HistoOK(data, hlink, heads, bins, free) && i < BUCKETS && j < |bins[i]| && Bucket(n) <= i
    requires BinsBelow(data, bins, Bucket(n), i, n) && Below(data, bins[i], j, n)
    requires q in free && n <= data[q].size
    ensures bins[i][j] in free && data[bins[i][j]].size <= data[q].size
  {
    assert BinOK(data, hlink, heads[i], bins[i], i, free);
    assert bins[i][j] in bins[i];
    var b := Bucket(data[q].size);
    assert BinOK(data, hlink, heads[b], bins[b], b, free);
    var k := Idx(bins[b], q);
    assert b < i ==> Below(data, bins[b], |bins[b]|, n);
  }

  /** When every chain from the size class of `n` on is exhausted, nothing indexed is large enough. */
  lemma NoneFits(data: map<Ptr, Data>, hlink: map<Ptr, Link>, heads: seq<Ptr>, bins: seq<seq<Ptr>>, free: set<Ptr>,
                 n: nat, q: Ptr)
    requires HistoOK(data, hlink, heads, bins, free) && BinsBelow(data, bins, Bucket(n), BUCKETS, n) && q in free
    ensures data[q].size < n
  {
    var b := Bucket(data[q].size);
    assert BinOK(data, hlink, heads[b], bins[b], b, free);
    var k := Idx(bins[b], q);
    assert Bucket(n) <= b ==> Below(data, bins[b], |bins[b]|, n);
  }

  /** Heads and links determine what the histogram indexes. */
  lemma HistoUnique(data: map<Ptr, Data>, hlink: map<Ptr, Link>, heads: seq<Ptr>, bins: seq<seq<Ptr>>, free: set<Ptr>,
                    bins': seq<seq<Ptr>>, free': set<Ptr>, p: Ptr)
    requires HistoOK(data, hlink, heads, bins, free) && HistoOK(data, hlink, heads, bins', free') && p in free
    ensures p in free'
  {
    var i := Bucket(data[p].size);
    assert BinOK(data, hlink, heads[i], bins[i], i, free) && BinOK(data, hlink, heads[i], bins'[i], i, free');
    ChainUnique(hlink, bins[i], bins'[i], |bins[i]|);
    var k := Idx(bins[i], p);
    assert bins'[i][k] == bins[i][..|bins[i]|][k] == p;
  }
}
