/** The laws a key type promises by implementing the source's total order. */
module Ordering {

  /** `lt` is the strict part of a total order whose `Equal` is equality. */
  ghost predicate StrictTotal<K(!new)>(lt: (K, K) -> bool) {
    && (forall x :: !lt(x, x))
    && (forall x, y :: lt(x, y) || x == y || lt(y, x))
    && (forall x, y, z :: lt(x, y) && lt(y, z) ==> lt(x, z))
  }

  lemma Asymmetric<K(!new)>(lt: (K, K) -> bool, x: K, y: K)
    requires StrictTotal(lt) && lt(x, y)
    ensures !lt(y, x)
  {
    assert lt(y, x) ==> lt(x, x);
  }

  datatype Option<+T> = None | Some(value: T)
}
