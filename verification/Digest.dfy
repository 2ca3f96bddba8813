/**
 SHA-256 as a parameter: any function from byte strings to 64 lower-case hex digits.

 No such function is injective, so a claim that rests on collision resistance names the
 byte strings it needs to be told apart, with `CollisionFree`.
 */
module Digest {
  import opened Common

  type Hash = h: bytes -> string | forall b: bytes :: IsHex64(h(b))
    witness (b: bytes) => seq(64, i => '0')

  ghost predicate CollisionFree(h: Hash, inputs: set<bytes>) {
    forall a, b :: a in inputs && b in inputs && h(a) == h(b) ==> a == b
  }
}
