/** Doubly linked chains threaded through headers that live at addresses.
  *
  * A pointer is the address of a header and 0 is the null pointer.  The two link fields of a header
  * are kept in a map from the header's address, so that pointers computed by arithmetic and pointers
  * read from a field denote the same thing.  `Chain(m, s)` says that the links in `m` thread the nodes
  * of `s` in order.  The two lemmas are the pointer surgery of insertion and removal.
  */
module Links {
  import opened Basics

  type Ptr = int

  const NULL: Ptr := 0

  datatype Link = Link(next: Ptr, prev: Ptr)

  function At(s: seq<Ptr>, i: int): Ptr {
    if 0 <= i < |s| then s[i] else NULL
  }

  ghost predicate Distinct(s: seq<Ptr>) {
    forall i, j :: 0 <= i < j < |s| ==> s[i] != s[j]
  }

  /** The links of the node at position `i` name its neighbours in `s`. */
  ghost predicate LinkedAt(m: map<Ptr, Link>, s: seq<Ptr>, i: int) {
    0 <= i < |s| ==> s[i] in m && m[s[i]] == Link(At(s, i + 1), At(s, i - 1))
  }

  ghost predicate Chain(m: map<Ptr, Link>, s: seq<Ptr>) {
    && (forall i :: 0 <= i < |s| ==> s[i] != NULL && s[i] in m)
    && (forall i :: LinkedAt(m, s, i))
    && Distinct(s)
  }

  /** The position of `p` in `s`. */
  ghost function Idx(s: seq<Ptr>, p: Ptr): (k: nat)
    requires p in s
    ensures k < |s| && s[k] == p
  {
    if s[0] == p then 0 else 1 + Idx(s[1..], p)
  }

  /** A chain does not notice changes to links of nodes outside it. */
  lemma ChainFrame(m: map<Ptr, Link>, m': map<Ptr, Link>, s: seq<Ptr>)
    requires Chain(m, s)
    requires forall p :: p in s ==> p in m' && m'[p] == m[p]
    ensures Chain(m', s)
  {
    forall i
      ensures LinkedAt(m', s, i)
    {
      assert LinkedAt(m, s, i);
      assert 0 <= i < |s| ==> s[i] in s;
    }
    assert forall i :: 0 <= i < |s| ==> s[i] in s;
  }

  lemma ChainWrite(m: map<Ptr, Link>, s: seq<Ptr>, p: Ptr, l: Link)
    requires Chain(m, s) && p !in s
    ensures Chain(m[p := l], s)
  {
    ChainFrame(m, m[p := l], s);
  }

  /** The links after `n` has been spliced in before position `j` of the chain `s`. */
  ghost predicate SplicedIn(m: map<Ptr, Link>, m': map<Ptr, Link>, s: seq<Ptr>, j: nat, n: Ptr)
    requires j <= |s|
  {
    && n in m' && m'[n] == Link(At(s, j), At(s, j - 1))
    && (0 < j ==> s[j - 1] in m && s[j - 1] in m' && m'[s[j - 1]] == m[s[j - 1]].(next := n))
    && (j < |s| ==> s[j] in m && s[j] in m' && m'[s[j]] == m[s[j]].(prev := n))
    && (forall i :: 0 <= i < |s| && i != j - 1 && i != j ==> s[i] in m && s[i] in m' && m'[s[i]] == m[s[i]])
  }

  lemma ChainInsert(m: map<Ptr, Link>, m': map<Ptr, Link>, s: seq<Ptr>, j: nat, n: Ptr)
    requires Chain(m, s) && j <= |s| && n !in s && n != NULL
    requires SplicedIn(m, m', s, j, n)
    ensures Chain(m', InsertAt(s, j, n))
  {
    var t := InsertAt(s, j, n);
    InsertElements(s, j, n);
    forall i
      ensures LinkedAt(m', t, i)
    {
      assert LinkedAt(m, s, i) && LinkedAt(m, s, i - 1);
    }
    assert forall i :: 0 <= i < j ==> t[i] == s[i];
    assert forall i :: j < i < |t| ==> t[i] == s[i - 1];
  }

  lemma InsertElements(s: seq<Ptr>, j: nat, n: Ptr)
    requires j <= |s|
    ensures forall p :: p in InsertAt(s, j, n) <==> p in s || p == n
    ensures Distinct(s) && n !in s ==> Distinct(InsertAt(s, j, n))
  {
    var t := InsertAt(s, j, n);
    assert t[j] == n;
    assert forall i :: 0 <= i < j ==> t[i] == s[i];
    assert forall i :: j <= i < |s| ==> t[i + 1] == s[i];
  }

  /** The links after the node at position `k` of the chain `s` has been unlinked. */
  ghost predicate SplicedOut(m: map<Ptr, Link>, m': map<Ptr, Link>, s: seq<Ptr>, k: nat)
    requires k < |s|
  {
    && (0 < k ==> s[k - 1] in m && s[k - 1] in m' && m'[s[k - 1]] == m[s[k - 1]].(next := At(s, k + 1)))
    && (k + 1 < |s| ==> s[k + 1] in m && s[k + 1] in m' && m'[s[k + 1]] == m[s[k + 1]].(prev := At(s, k - 1)))
    && (forall i :: 0 <= i < |s| && i != k - 1 && i != k && i != k + 1 ==>
       s[i] in m && s[i] in m' && m'[s[i]] == m[s[i]])
  }

  lemma ChainRemove(m: map<Ptr, Link>, m': map<Ptr, Link>, s: seq<Ptr>, k: nat)
    requires Chain(m, s) && k < |s|
    requires SplicedOut(m, m', s, k)
    ensures Chain(m', RemoveAt(s, k))
  {
    var t := RemoveAt(s, k);
    RemoveElements(s, k);
    forall i
      ensures LinkedAt(m', t, i)
    {
      assert LinkedAt(m, s, i) && LinkedAt(m, s, i + 1);
    }
    assert forall i :: 0 <= i < k ==> t[i] == s[i];
    assert forall i :: k <= i < |t| ==> t[i] == s[i + 1];
  }

  lemma RemoveElements(s: seq<Ptr>, k: nat)
    requires k < |s| && Distinct(s)
    ensures forall p :: p in RemoveAt(s, k) <==> p in s && p != s[k]
    ensures Distinct(RemoveAt(s, k))
  {
    var t := RemoveAt(s, k);
    assert forall i :: 0 <= i < k ==> t[i] == s[i];
    assert forall i :: k < i < |s| ==> t[i - 1] == s[i];
  }

  /** Links and a first node determine the chain. */
  lemma {:induction false} ChainUnique(m: map<Ptr, Link>, s: seq<Ptr>, t: seq<Ptr>, k: nat)
    requires Chain(m, s) && Chain(m, t) && At(s, 0) == At(t, 0) && k <= |s|
    ensures k <= |t| && s[..k] == t[..k] && At(s, k) == At(t, k)
  {
    if k > 0 {
      ChainUnique(m, s, t, k - 1);
      assert LinkedAt(m, s, k - 1) && LinkedAt(m, t, k - 1);
    }
  }
}
