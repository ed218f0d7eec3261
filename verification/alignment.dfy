/** The `align` helper of alloc.go, on which every allocator's
    arithmetic rests. */
module Alignment {

  /** The first multiple of `alignment` at or after `index`. Go's `%` by
      zero panics, hence the requirement. */
  function Align(index: nat, alignment: nat): (r: nat)
    requires alignment > 0
    ensures r % alignment == 0
    ensures index <= r < index + alignment
    ensures index % alignment == 0 ==> r == index
  {
    if index % alignment == 0 then index
    else
      var q := index / alignment;
      NextMultiple(q, alignment);
      index + alignment - index % alignment
  }

  /** The multiple after q*a is a multiple as well. */
  lemma NextMultiple(q: nat, a: nat)
    requires a > 0
    ensures (q * a + a) % a == 0
  {
    ModUnique(q * a + a, a, q + 1, 0);
  }

  lemma MulAtLeast(d: int, a: int)
    requires d >= 1 && a > 0
    ensures d * a >= a
  {
    assert d * a == (d - 1) * a + a;
  }

  /** Euclidean division has one quotient and one remainder. */
  lemma ModUnique(x: nat, a: nat, q: int, r: int)
    requires a > 0 && 0 <= r < a && x == q * a + r
    ensures x % a == r
  {
    var q', r' := x / a, x % a;
    assert x == q' * a + r';
    assert (q - q') * a == r' - r;
    if q > q' {
      MulAtLeast(q - q', a);
    } else if q < q' {
      MulAtLeast(q' - q, a);
    }
  }

  /** A number below `a` is its own remainder. */
  lemma SmallMod(d: nat, a: nat)
    requires a > 0
    ensures d < a ==> d % a == d
  {
    if d < a {
      ModUnique(d, a, 0, d);
    }
  }

  /** Two distinct multiples of `a` lie at least `a` apart. */
  lemma MultiplesApart(a: nat, x: nat, y: nat)
    requires a > 0 && x % a == 0 && y % a == 0 && x < y
    ensures x + a <= y
  {
    var p, q := x / a, y / a;
    assert x == p * a && y == q * a;
    assert y - x == (q - p) * a;
    ModUnique(y - x, a, q - p, 0);
    SmallMod(y - x, a);
  }

  /** No multiple of `alignment` at or after `index` lies below
      `Align(index, alignment)`: it is the least such multiple. */
  lemma AlignIsLeast(index: nat, alignment: nat, m: nat)
    requires alignment > 0 && m % alignment == 0 && index <= m
    ensures Align(index, alignment) <= m
  {
    var r := Align(index, alignment);
    if m < r {
      MultiplesApart(alignment, m, r);
    }
  }

  /** Aligning an already aligned offset changes nothing. */
  lemma AlignIdempotent(index: nat, alignment: nat)
    requires alignment > 0
    ensures Align(Align(index, alignment), alignment) == Align(index, alignment)
  {
  }
}
