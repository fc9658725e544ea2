/** Types shared by every component: nullable columns, instants and bytes. */
module Common {
  /** A nullable column or an optional result. */
  datatype Option<+T> = None | Some(value: T)

  /** An instant, in milliseconds. */
  type Instant = int

  /** The largest whole number the source counts as a safe integer. */
  const MAX_SAFE_INTEGER: int := 9_007_199_254_740_991

  type Byte = b: int | 0 <= b < 256
  type Bytes = seq<Byte>

  /** A subset is no larger. */
  lemma SubsetIsNoLarger<T>(a: set<T>, b: set<T>)
    requires a <= b
    ensures |a| <= |b|
  {
    assert b == a + (b - a);
  }

  lemma DisjointUnion<T>(a: set<T>, b: set<T>)
    requires a !! b
    ensures |a + b| == |a| + |b|
  {
  }

  lemma ProductGrows(n: nat, a: int, b: int)
    requires a <= b
    ensures n * a <= n * b
    ensures n * (a + 1) == n * a + n
  {
    assert n * (b - a) >= 0;
  }

  /** A number that is not in a finite set. */
  lemma {:induction false} UnusedNumber(used: set<nat>) returns (n: nat)
    ensures forall d :: d in used ==> d < n
    decreases |used|
  {
    if first :| first in used {
      var rest := UnusedNumber(used - {first});
      n := Max(rest, first + 1);
      assert forall d :: d in used ==> d == first || d in used - {first};
    } else {
      n := 0;
    }
  }

  function Max(a: int, b: int): (m: int)
    ensures m >= a && m >= b && (m == a || m == b)
  {
    if a >= b then a else b
  }

  function Min(a: int, b: int): (m: int)
    ensures m <= a && m <= b && (m == a || m == b)
  {
    if a <= b then a else b
  }
}
