/** What several parts of the model share. */
module Basics {

  datatype Option<T> = None | Some(value: T)

  type Byte = x: int | 0 <= x < 256

  const PGSIZE: nat := 4096

  /** A PTE: frame number and the flag bits V, PG, A and R, W, X, U. */
  datatype Pte = Pte(ppn: nat, valid: bool, pg: bool, acc: bool, perm: Perm)
  datatype Perm = Perm(r: bool, w: bool, x: bool, u: bool)

  function Pow2(k: nat): (p: nat)
    ensures p > 0
  {
    if k == 0 then 1 else 2 * Pow2(k - 1)
  }

  lemma Pow2Of0()
    ensures Pow2(0) == 1
  {
  }

  lemma Pow2Doubles(k: nat)
    requires k > 0
    ensures Pow2(k) == 2 * Pow2(k - 1)
  {
  }
}
