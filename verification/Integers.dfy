/** The 64-bit integers of Go: signed sums and products keep their low 64 bits. */
module Integers {

  const TWO_64: int := 0x1_0000_0000_0000_0000
  const MAX_INT64: int := 0x7fff_ffff_ffff_ffff

  predicate InInt64(n: int) {
    -MAX_INT64 - 1 <= n <= MAX_INT64
  }

  type int64 = n: int | InInt64(n)
  type uint64 = n: int | 0 <= n < TWO_64

  /** The value of a signed sum or product. */
  function Wrap64(n: int): (r: int)
    ensures InInt64(r)
  {
    var m := n % TWO_64;
    if m <= MAX_INT64 then m else m - TWO_64
  }

  lemma WrapIsIdentity(n: int)
    requires InInt64(n)
    ensures Wrap64(n) == n
  {
  }

  /** Just behind the largest signed number come the smallest ones. */
  lemma WrapsOnce(n: int)
    requires MAX_INT64 < n < TWO_64
    ensures Wrap64(n) == n - TWO_64
  {
  }

  /** Conversion of a signed to an unsigned number. */
  function Unsigned(n: int): nat {
    n % TWO_64
  }

  lemma UnsignedOfSmall(n: int)
    ensures 0 <= n < TWO_64 ==> Unsigned(n) == n
  {
  }
}
