/** Byte-addressed memory.  Writing a field of a header may change any of the header's bytes. */
module Memory {
  import opened Basics
  import opened Links
  import opened Heap

  /** Address `x` lies in the header at `p`. */
  predicate InHeader(p: Ptr, x: int) {
    p <= x < p + META
  }

  /** Address `x` lies in one of the headers at `s`. */
  ghost predicate Under(s: set<Ptr>, x: int) {
    exists p :: p in s && InHeader(p, x)
  }

  /** Only bytes of the headers at `s` differ. */
  ghost predicate SameOutside(m: Mem, m': Mem, s: set<Ptr>) {
    forall x :: !Under(s, x) ==> m'(x) == m(x)
  }

  ghost function Nodes(s: seq<Ptr>): set<Ptr> {
    set p | p in s
  }

  /** The headers on a list `s` and, when there is room below `limit`, one at the break. */
  ghost function Touched(s: seq<Ptr>, brk: int, limit: int): set<Ptr> {
    Nodes(s) + if brk + META <= limit then {brk} else {}
  }

  lemma NodesHas(s: seq<Ptr>)
    ensures forall p :: p in s ==> p in Nodes(s)
  {
  }

  lemma NodesRemove(s: seq<Ptr>, k: nat)
    requires k < |s|
    ensures Nodes(RemoveAt(s, k)) <= Nodes(s)
  {
    assert forall i :: 0 <= i < |RemoveAt(s, k)| ==> RemoveAt(s, k)[i] == s[if i < k then i else i + 1];
  }

  lemma NodesTouched(s: seq<Ptr>, brk: int, limit: int)
    ensures Nodes(s) <= Touched(s, brk, limit)
  {
  }

  lemma SameNow(m: Mem, s: set<Ptr>)
    ensures SameOutside(m, m, s)
  {
  }

  lemma SameTrans(m: Mem, m': Mem, m'': Mem, s: set<Ptr>, s': set<Ptr>, t: set<Ptr>)
    requires SameOutside(m, m', s) && SameOutside(m', m'', s') && s <= t && s' <= t
    ensures SameOutside(m, m'', t)
  {
    forall x | !Under(t, x)
      ensures m''(x) == m(x)
    {
      assert !Under(s, x) && !Under(s', x);
    }
  }

  /** The `n` bytes at `src` have been moved to `dst`, all at once; nothing else differs. */
  ghost predicate Moved(m: Mem, m': Mem, dst: int, src: int, n: int) {
    && Carried(m, m', dst, src, n)
    && SameBeyond(m, m', dst, n)
  }
}
