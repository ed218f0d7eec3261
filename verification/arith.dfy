/** Products that place element i of an array at `data + i*size`. They
    are spelt as repeated addition so that the solver meets them only
    through the lemmas below. */
module Arith {

  /** `i * s`. */
  function Mul(i: nat, s: nat): nat {
    if i == 0 then 0 else Mul(i - 1, s) + s
  }

  lemma {:induction false} MulIsProduct(i: nat, s: nat)
    ensures Mul(i, s) == i * s
  {
    if i > 0 {
      MulIsProduct(i - 1, s);
    }
  }

  lemma {:induction false} MulMonotone(i: nat, j: nat, s: nat)
    requires i <= j
    ensures Mul(i, s) <= Mul(j, s)
  {
    if i < j {
      MulMonotone(i, j - 1, s);
    }
  }

  /** Element i of a run of `len` elements of size `s` ends inside it. */
  lemma BlockInside(i: nat, len: nat, s: nat)
    requires i < len
    ensures Mul(i, s) + s <= Mul(len, s)
  {
    MulMonotone(i + 1, len, s);
  }

  /** Element i ends where element j (j > i) may start at the earliest. */
  lemma BlocksDisjoint(i: nat, j: nat, s: nat)
    requires i < j
    ensures Mul(i, s) + s <= Mul(j, s)
  {
    MulMonotone(i + 1, j, s);
  }
}
