/** Writes into a buffer of cells, and the layout of a Go type over them. */
module Buffers {

  /** What Go's `unsafe` knows about a type T stored in a buffer of cells
      C: its size and alignment (`unsafe.Sizeof`, `unsafe.Alignof`), its
      zero value (`*new(T)`), and how a value is laid out as `size` cells
      and read back (the pointer cast). */
  datatype Layout<!C, !T(!new)> = Layout(
    size: nat,
    align: nat,
    zero: T,
    enc: T -> seq<C>,
    dec: seq<C> -> T)
  {
    /** Alignment is positive, every value occupies exactly `size` cells,
        and reading back what was written yields the same value. */
    ghost predicate Valid() {
      && align > 0
      && forall v: T :: |enc(v)| == size && dec(enc(v)) == v
    }
  }

  /** `buf` with the cells from `at` on replaced by `cs`. */
  function Write<C>(buf: seq<C>, at: nat, cs: seq<C>): (r: seq<C>)
    requires at + |cs| <= |buf|
    ensures |r| == |buf|
    ensures r[at..at + |cs|] == cs
    ensures forall k :: 0 <= k < |buf| && !(at <= k < at + |cs|) ==> r[k] == buf[k]
  {
    buf[..at] + cs + buf[at + |cs|..]
  }

  /** A read of cells disjoint from a write sees the old contents. */
  lemma WriteElsewhere<C>(buf: seq<C>, at: nat, cs: seq<C>, o: nat, n: nat)
    requires at + |cs| <= |buf| && o + n <= |buf|
    requires o + n <= at || at + |cs| <= o
    ensures Write(buf, at, cs)[o..o + n] == buf[o..o + n]
  {
    var r := Write(buf, at, cs);
    forall k | o <= k < o + n
      ensures r[k] == buf[k]
    {
    }
  }
}
