/** What several of the modules share. */
module Basics {

  datatype Option<T> = None | Some(value: T)

  type byte = x: int | 0 <= x < 0x100

  const SIZE_LIMIT := 0x1_0000_0000_0000_0000  // one more than the largest size_t

  /** The two processes of a program that forks. */
  datatype Who = Parent | Child

  function Other(w: Who): (o: Who)
    ensures o != w
  {
    if w == Parent then Child else Parent
  }

  /** A schedule given in blocks. */
  function Flatten(blocks: seq<seq<Who>>): (r: seq<Who>) {
    if blocks == [] then [] else blocks[0] + Flatten(blocks[1..])
  }

  /** Each block gives both processes a turn. */
  ghost predicate Fair(blocks: seq<seq<Who>>) {
    forall b :: b in blocks ==> Parent in b && Child in b
  }
}
