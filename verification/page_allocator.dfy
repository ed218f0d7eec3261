/** page_allocator.go: a bump allocator over one fixed page that fails
    rather than grows. */
module PageAlloc {
  import opened Base
  import opened Alignment

  /** `pageSize`: the size of a page on Linux. */
  const PageSize: nat := 4096

  /** `ref` is the cursor (the next free offset), `b` the page. The cell
      type C stands for whatever the page holds; the source's is `byte`. */
  datatype PageAllocator<C> = PageAllocator(ref: nat, b: seq<C>)
  {
    ghost predicate Valid() {
      |b| == PageSize && ref <= PageSize
    }

    /** Reserve `size` cells at the first multiple of `alignment` at or
        after the cursor, or report exhaustion and change nothing. */
    function Alloc(size: nat, alignment: nat): (r: Outcome<PageAllocator<C>, nat>)
      requires Valid() && alignment > 0
      ensures r.state.Valid() && r.state.b == b
      ensures r.err.Some? <==> Align(ref, alignment) + size > PageSize
      ensures r.err.Some? ==> r.err == Some(ErrMemoryExhausted) && r.value == 0 && r.state == this
      ensures r.err.None? ==>
        && r.value == Align(ref, alignment)
        && r.value % alignment == 0
        && ref <= r.value < ref + alignment
        && r.state.ref == r.value + size
    {
      var start := Align(ref, alignment);
      var end := start + size;
      if PageSize < end then Outcome(this, 0, Some(ErrMemoryExhausted))
      else Outcome(PageAllocator(end, b), start, None)
    }

    /** The address of cell `offset`: Go's bounds check on the page array
        is the requirement. The page is never replaced, so the buffer
        number is always 0. */
    function Offset(offset: nat): (addr: Address)
      requires offset < PageSize
      ensures addr.index == offset && addr.buffer == 0
    {
      Address(0, offset)
    }

    /** The room left in the page. */
    function Available(): (n: nat)
      requires Valid()
      ensures n + ref == PageSize
    {
      PageSize - ref
    }

    /** Moves the cursor back to the start of the page; the cells keep
        their old contents and will be overwritten by later use. */
    function Reset(): (r: PageAllocator<C>)
      requires Valid()
      ensures r.Valid() && r.ref == 0 && r.b == b
    {
      PageAllocator(0, b)
    }
  }

  /** `NewPageAllocator`: an empty page whose cells all hold the zero
      value Go gives a fresh array. */
  function NewPageAllocator<C>(zero: C): (a: PageAllocator<C>)
    ensures a.Valid() && a.ref == 0
    ensures forall i :: 0 <= i < |a.b| ==> a.b[i] == zero
  {
    PageAllocator(0, seq(PageSize, _ => zero))
  }

  /** With byte-aligned requests, an allocation succeeds exactly when it
      fits in what `Available` reports, and it uses up exactly its size. */
  lemma AvailableIsRoom<C>(a: PageAllocator<C>, size: nat)
    requires a.Valid()
    ensures a.Alloc(size, 1).err.None? <==> size <= a.Available()
    ensures a.Alloc(size, 1).err.None? ==> a.Alloc(size, 1).state.Available() == a.Available() - size
  {
  }

  /** One request of a run of allocations. */
  datatype Request = Request(size: nat, alignment: nat)

  /** Runs the requests in order and stops at the first that fails,
      returning the offsets of those that succeeded and the state just
      before the failing one (which left it unchanged). */
  function AllocAll<C>(a: PageAllocator<C>, reqs: seq<Request>): (r: Outcome<PageAllocator<C>, seq<nat>>)
    requires a.Valid()
    requires forall i :: 0 <= i < |reqs| ==> reqs[i].alignment > 0
    ensures r.state.Valid() && r.state.b == a.b && a.ref <= r.state.ref
    ensures r.err.None? ==> |r.value| == |reqs|
    ensures r.err.Some? ==>
      && |r.value| < |reqs|
      && r.err == Some(ErrMemoryExhausted)
      && var failing := reqs[|r.value|];
         r.state.Alloc(failing.size, failing.alignment) == Outcome(r.state, 0, r.err)
    ensures Reserved(reqs, r.value, a.ref, r.state.ref)
    ensures Ordered(reqs, r.value)
    decreases |reqs|
  {
    if |reqs| == 0 then Outcome(a, [], None)
    else
      var first := a.Alloc(reqs[0].size, reqs[0].alignment);
      if first.err.Some? then Outcome(a, [], first.err)
      else
        var rest := AllocAll(first.state, reqs[1..]);
        ReservedCons(reqs, first.value, rest.value, a.ref, first.state.ref, rest.state.ref);
        Outcome(rest.state, [first.value] + rest.value, rest.err)
  }

  /** Every reservation `offs[i]` is aligned as request i asks and lies
      in `[lo, hi)`. */
  ghost predicate Reserved(reqs: seq<Request>, offs: seq<nat>, lo: nat, hi: nat) {
    && |offs| <= |reqs|
    && forall i :: 0 <= i < |offs| ==>
         && reqs[i].alignment > 0 && offs[i] % reqs[i].alignment == 0
         && lo <= offs[i] && offs[i] + reqs[i].size <= hi
  }

  /** Each reservation ends before the next one starts, so no two overlap. */
  ghost predicate Ordered(reqs: seq<Request>, offs: seq<nat>) {
    && |offs| <= |reqs|
    && forall i, j :: 0 <= i < j < |offs| ==> offs[i] + reqs[i].size <= offs[j]
  }

  /** The first reservation, below `mid`, followed by the rest, above it. */
  lemma ReservedCons(reqs: seq<Request>, first: nat, rest: seq<nat>, lo: nat, mid: nat, hi: nat)
    requires |reqs| > 0 && reqs[0].alignment > 0 && first % reqs[0].alignment == 0
    requires lo <= first && first + reqs[0].size <= mid
    requires mid <= hi && Reserved(reqs[1..], rest, mid, hi) && Ordered(reqs[1..], rest)
    ensures Reserved(reqs, [first] + rest, lo, hi) && Ordered(reqs, [first] + rest)
  {
    var v := [first] + rest;
    assert forall i :: 0 <= i < |rest| ==> reqs[1..][i] == reqs[i + 1] && v[i + 1] == rest[i];
    forall i, j | 0 <= i < j < |v|
      ensures v[i] + reqs[i].size <= v[j]
    {
      if i > 0 {
        assert v[i] == rest[i - 1] && v[j] == rest[j - 1] && reqs[i] == reqs[1..][i - 1];
      }
    }
  }
}
