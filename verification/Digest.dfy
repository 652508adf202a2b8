/** SHA-256 as an arbitrary function; results that rely on it being collision-free say so. */
module Digest {
  ghost predicate CollisionFree(hash: string -> string) { forall a, b :: hash(a) == hash(b) ==> a == b }
}
