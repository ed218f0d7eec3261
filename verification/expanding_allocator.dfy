/** expanding_allocator.go: a bump allocator over a slice that is
    replaced by one of twice the needed size whenever a reservation would
    not fit. This variant applies no alignment. */
module ExpandingAlloc {
  import opened Base

  /** The capacity `NewExpandingAllocator` starts with (`pageSize`). */
  const InitialCapacity: nat := 4096

  /** `math.MaxUint64`, what `Available` always reports. */
  const MaxUint64: nat := 0xFFFF_FFFF_FFFF_FFFF

  /** The Go slice `*b`: `mem` is its backing array (its capacity is
      `|mem|`), `len` its length, which serves as the cursor. `gen`
      numbers the backing array: it changes when growth replaces it.
      `zero` is the cell a fresh Go array is filled with. */
  datatype ExpandingAllocator<C> = ExpandingAllocator(mem: seq<C>, len: nat, gen: nat, zero: C)
  {
    ghost predicate Valid() {
      len <= |mem|
    }

    function Capacity(): nat {
      |mem|
    }

    /** Reserve `size` cells at the current length. When they do not fit
        the capacity, a new backing array of twice the new length replaces
        the old one, holding a copy of the cells below the old length and
        zero cells after them. Never fails. */
    function Alloc(size: nat): (r: Outcome<ExpandingAllocator<C>, nat>)
      requires Valid()
      ensures r.state.Valid() && r.state.zero == zero
      ensures r.err == None
      ensures r.value == len && r.state.len == len + size
      ensures |r.state.mem| >= len && r.state.mem[..len] == mem[..len]
      ensures Capacity() < len + size ==>
        && r.state.Capacity() == 2 * (len + size)
        && r.state.gen == gen + 1
        && forall i :: len <= i < r.state.Capacity() ==> r.state.mem[i] == zero
      ensures len + size <= Capacity() ==> r.state.mem == mem && r.state.gen == gen
    {
      var start := len;
      var end := start + size;
      if |mem| < end then
        var grown := mem[..start] + seq(end * 2 - start, _ => zero);
        Outcome(ExpandingAllocator(grown, end, gen + 1, zero), start, None)
      else
        Outcome(ExpandingAllocator(mem, end, gen, zero), start, None)
    }

    /** The address of cell `offset` of the current backing array; Go's
        slice bounds check against the length is the requirement. */
    function Offset(offset: nat): (addr: Address)
      requires offset < len
      ensures addr.index == offset && addr.buffer == gen
    {
      Address(gen, offset)
    }

    /** Growth is unbounded, so the reported room is the largest uintptr. */
    function Available(): (n: nat)
      ensures n == MaxUint64
    {
      MaxUint64
    }

    /** Truncates the length to 0; capacity and cells stay as they are. */
    function Reset(): (r: ExpandingAllocator<C>)
      requires Valid()
      ensures r.Valid() && r.len == 0 && r.mem == mem && r.gen == gen
    {
      ExpandingAllocator(mem, 0, gen, zero)
    }
  }

  /** `NewExpandingAllocator`: an empty slice with capacity `pageSize`. */
  function NewExpandingAllocator<C>(zero: C): (a: ExpandingAllocator<C>)
    ensures a.Valid() && a.len == 0 && a.Capacity() == InitialCapacity && a.zero == zero
    ensures forall i :: 0 <= i < |a.mem| ==> a.mem[i] == zero
  {
    ExpandingAllocator(seq(InitialCapacity, _ => zero), 0, 0, zero)
  }

  /** Two allocations in a row are adjacent: no alignment gap and no
      overlap. */
  lemma AllocAdjacent<C>(a: ExpandingAllocator<C>, s1: nat, s2: nat)
    requires a.Valid()
    ensures var r1 := a.Alloc(s1); var r2 := r1.state.Alloc(s2);
      r1.value + s1 == r2.value
  {
  }
}
