/** What several of the modules use. */
module Basics {
  type Byte = b: int | 0 <= b < 256

  function Min(x: int, y: int): (m: int)
    ensures m <= x && m <= y && (m == x || m == y)
  {
    if x < y then x else y
  }

  function InsertAt<T>(s: seq<T>, j: nat, n: T): (t: seq<T>)
    requires j <= |s|
    ensures |t| == |s| + 1
  {
    s[..j] + [n] + s[j..]
  }

  function RemoveAt<T>(s: seq<T>, k: nat): (t: seq<T>)
    requires k < |s|
    ensures |t| == |s| - 1
  {
    s[..k] + s[k + 1..]
  }

  // ----- sizes

  const MAX_REQUEST: int := 100000000

  const WORD: int := 0x1_0000_0000_0000_0000

  /** size_t */
  type Size = n: int | 0 <= n < WORD

  /** num * size, as it is meant. */
  function Product(num: Size, size: Size): nat {
    num * size
  }

  /** num * size, as size_t computes it. */
  function Wrapped(num: Size, size: Size): Size {
    Product(num, size) % WORD
  }

  lemma WrappedIs(num: Size, size: Size)
    ensures Wrapped(num, size) <= Product(num, size)
    ensures Product(num, size) < WORD ==> Wrapped(num, size) == Product(num, size)
  {
  }

  // ----- memory as a map from addresses

  type Mem = int -> Byte

  /** The `n` bytes at `dst` are those that were at `src`. */
  ghost predicate Carried(m: Mem, m': Mem, dst: int, src: int, n: int) {
    forall x :: dst <= x < dst + n ==> m'(x) == m(src + (x - dst))
  }

  lemma CarriedNow(m: Mem, p: int, len: int)
    ensures Carried(m, m, p, p, len)
  {
  }

  lemma CarriedTrans(m: Mem, m1: Mem, m2: Mem, p: int, p1: int, p2: int, len: int)
    requires Carried(m, m1, p1, p, len) && Carried(m1, m2, p2, p1, len)
    ensures Carried(m, m2, p2, p, len)
  {
    forall x | p2 <= x < p2 + len
      ensures m2(x) == m(p + (x - p2))
    {
      assert m2(x) == m1(p1 + (x - p2));
    }
  }

  /** Only the `n` bytes at `p` differ. */
  ghost predicate SameBeyond(m: Mem, m': Mem, p: int, n: int) {
    forall x :: !(p <= x < p + n) ==> m'(x) == m(x)
  }

  function ZeroedByte(m: Mem, p: int, n: int, x: int): Byte {
    if p <= x < p + n then 0 else m(x)
  }

  /** memset to zero */
  function Zeroed(m: Mem, p: int, n: int): Mem {
    x => ZeroedByte(m, p, n, x)
  }

  lemma ZeroedIs(m: Mem, p: int, n: int)
    ensures forall x :: p <= x < p + n ==> Zeroed(m, p, n)(x) == 0
    ensures SameBeyond(m, Zeroed(m, p, n), p, n)
  {
  }

  function CopiedByte(m: Mem, dst: int, src: int, n: int, x: int): Byte {
    if dst <= x < dst + n then m(src + (x - dst)) else m(x)
  }

  lemma CopiedByteIs(m: Mem, dst: int, src: int, n: int, x: int)
    ensures CopiedByte(m, dst, src, n, x) == if dst <= x < dst + n then m(src + (x - dst)) else m(x)
  {
  }

  /** memmove: all bytes at once, so the ranges may overlap. */
  function Copied(m: Mem, dst: int, src: int, n: int): Mem {
    x => CopiedByte(m, dst, src, n, x)
  }

  lemma CopiedIs(m: Mem, dst: int, src: int, n: int)
    ensures Carried(m, Copied(m, dst, src, n), dst, src, n) && SameBeyond(m, Copied(m, dst, src, n), dst, n)
  {
    hide CopiedByte;
    forall x | dst <= x < dst + n
      ensures Copied(m, dst, src, n)(x) == m(src + (x - dst))
    {
      CopiedByteIs(m, dst, src, n, x);
    }
    forall x | !(dst <= x < dst + n)
      ensures Copied(m, dst, src, n)(x) == m(x)
    {
      CopiedByteIs(m, dst, src, n, x);
    }
  }
}
