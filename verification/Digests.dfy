/** 32-byte hash values. */
module Digests {
  type Bytes = seq<bv8>

  type Digest = d: Bytes | |d| == 32 witness [0, 0, 0, 0, 0, 0, 0, 0, 0, 0, 0, 0, 0, 0, 0, 0, 0, 0, 0, 0, 0, 0, 0, 0,
    0, 0, 0, 0, 0, 0, 0, 0]

  /** No two of these inputs collide. */
  ghost predicate InjectiveOn<T(!new)>(h: T -> Digest, inputs: set<T>) {
    forall x, y :: x in inputs && y in inputs && h(x) == h(y) ==> x == y
  }
}
