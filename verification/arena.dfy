/** The `Allocator` interface of alloc.go, realised by the two shown
    allocators, together with the cell-level reads and writes that Go
    performs through the raw pointers `Offset` returns. */
module Arenas {
  import opened Base
  import opened PageAlloc
  import opened ExpandingAlloc
  import opened Alignment
  import Buffers

  /** An allocator behind the interface. `id` is its identity: the thing
      the `alloc` field of a `Ptr` refers to. The shown
      `ExpandingAllocator.Alloc` takes no alignment, so the alignment a
      caller passes is dropped for it. */
  datatype Arena<C> =
    | Page(id: nat, page: PageAllocator<C>)
    | Expanding(id: nat, exp: ExpandingAllocator<C>)
  {
    ghost predicate Valid() {
      match this
      case Page(_, p) => p.Valid()
      case Expanding(_, e) => e.Valid()
    }

    /** The next free offset: `ref` of the page, `len` of the slice. */
    function Cursor(): nat {
      match this
      case Page(_, p) => p.ref
      case Expanding(_, e) => e.len
    }

    /** The current buffer, indexed by offset. */
    function Cells(): seq<C> {
      match this
      case Page(_, p) => p.b
      case Expanding(_, e) => e.mem
    }

    /** The number of the current buffer. */
    function Gen(): nat {
      match this
      case Page(_, _) => 0
      case Expanding(_, e) => e.gen
    }

    /** What Go needs to resolve `n` cells at `offset`: `Offset`'s bounds
        check on `offset` itself (made even when `n` is 0), and the cells
        lying inside the buffer. */
    predicate Resolvable(offset: nat, n: nat) {
      match this
      case Page(_, p) => offset < PageSize && offset + n <= PageSize
      case Expanding(_, e) => offset < e.len && offset + n <= |e.mem|
    }

    /** `Alloc(size, alignment)`: the reservation `[value, value + size)`
        lies at or above the old cursor and ends at the new one; the
        buffer below the old cursor is untouched (`Grows`). Only the page
        allocator can fail: exactly when the aligned end passes the page,
        and then nothing changes and the offset is 0. */
    function Alloc(size: nat, alignment: nat): (r: Outcome<Arena<C>, nat>)
      requires Valid() && alignment > 0
      ensures Grows(this, r.state)
      ensures r.err.Some? ==> Page? && r.err == Some(ErrMemoryExhausted) && r.state == this && r.value == 0
      ensures r.err.None? ==> Cursor() <= r.value && r.state.Cursor() == r.value + size
      ensures Page? ==> (r.err.Some? <==> Align(Cursor(), alignment) + size > PageSize)
      ensures Page? && r.err.None? ==> r.value == Align(Cursor(), alignment) && r.value % alignment == 0
      ensures Expanding? ==> r.err.None? && r.value == Cursor()
    {
      match this
      case Page(id, p) =>
        var q := p.Alloc(size, alignment);
        Outcome(Page(id, q.state), q.value, q.err)
      case Expanding(id, e) =>
        var q := e.Alloc(size);
        Outcome(Expanding(id, q.state), q.value, q.err)
    }

    /** `Offset(offset)`: the raw address of `offset` in the current
        buffer. */
    function Offset(offset: nat): (addr: Address)
      requires Valid() && Resolvable(offset, 0)
      ensures addr.index == offset && addr.buffer == Gen()
    {
      match this
      case Page(_, p) => p.Offset(offset)
      case Expanding(_, e) => e.Offset(offset)
    }

    function Available(): (n: nat)
      requires Valid()
      ensures Page? ==> n == PageSize - Cursor()
      ensures Expanding? ==> n == MaxUint64
    {
      match this
      case Page(_, p) => p.Available()
      case Expanding(_, e) => e.Available()
    }

    /** An address is live while it points into the current buffer. */
    predicate Live(addr: Address, n: nat) {
      addr.buffer == Gen() && addr.index + n <= |Cells()|
    }

    /** Reads `n` cells through a live raw address. */
    function Load(addr: Address, n: nat): (cs: seq<C>)
      requires Live(addr, n)
      ensures |cs| == n
    {
      Cells()[addr.index..addr.index + n]
    }

    /** Writes `cs` through a live raw address; nothing outside the
        written cells changes. */
    function Store(addr: Address, cs: seq<C>): (r: Arena<C>)
      requires Valid() && Live(addr, |cs|)
      ensures Frame(this, r, addr.index, addr.index + |cs|)
      ensures r.Cells()[addr.index..addr.index + |cs|] == cs
    {
      match this
      case Page(id, p) =>
        Page(id, p.(b := Buffers.Write(p.b, addr.index, cs)))
      case Expanding(id, e) =>
        Expanding(id, e.(mem := Buffers.Write(e.mem, addr.index, cs)))
    }
  }

  /** `b` is what `a` became through allocations: same allocator, the
      cursor has not moved back, and every cell below the old cursor is
      as it was, wherever the buffer now lives. */
  ghost predicate Grows<C>(a: Arena<C>, b: Arena<C>) {
    && a.Valid() && b.Valid()
    && a.id == b.id && a.Page? == b.Page?
    && a.Cursor() <= b.Cursor()
    && b.Cells()[..a.Cursor()] == a.Cells()[..a.Cursor()]
  }

  /** `b` is `a` after writes confined to `[lo, hi)`: same allocator,
      cursor and buffer, and every cell outside `[lo, hi)` unchanged. */
  ghost predicate Frame<C>(a: Arena<C>, b: Arena<C>, lo: nat, hi: nat) {
    && a.Valid() && b.Valid()
    && a.id == b.id && a.Page? == b.Page?
    && a.Cursor() == b.Cursor() && a.Gen() == b.Gen()
    && |a.Cells()| == |b.Cells()|
    && forall k :: 0 <= k < |a.Cells()| && (k < lo || hi <= k) ==> b.Cells()[k] == a.Cells()[k]
  }

  /** Cells below the cursor can always be resolved. */
  lemma BelowCursorResolvable<C>(a: Arena<C>, o: nat, n: nat)
    requires a.Valid() && o < a.Cursor() && o + n <= a.Cursor()
    ensures a.Resolvable(o, n)
  {
  }

  lemma GrowsRefl<C>(a: Arena<C>)
    requires a.Valid()
    ensures Grows(a, a)
  {
  }

  lemma GrowsTrans<C>(a: Arena<C>, b: Arena<C>, c: Arena<C>)
    requires Grows(a, b) && Grows(b, c)
    ensures Grows(a, c)
  {
    assert c.Cells()[..a.Cursor()] == c.Cells()[..b.Cursor()][..a.Cursor()];
    assert b.Cells()[..a.Cursor()] == b.Cells()[..b.Cursor()][..a.Cursor()];
  }

  /** Writes at or above the old cursor keep what lies below it. */
  lemma GrowsThenFrame<C>(a: Arena<C>, b: Arena<C>, c: Arena<C>, lo: nat, hi: nat)
    requires Grows(a, b) && Frame(b, c, lo, hi) && a.Cursor() <= lo
    ensures Grows(a, c)
  {
    forall k | 0 <= k < a.Cursor()
      ensures c.Cells()[k] == a.Cells()[k]
    {
      assert b.Cells()[..a.Cursor()][k] == a.Cells()[..a.Cursor()][k];
    }
  }

  /** Two frames inside one region make one frame. */
  lemma FrameTrans<C>(a: Arena<C>, b: Arena<C>, c: Arena<C>, lo: nat, hi: nat, lo1: nat, hi1: nat, lo2: nat, hi2: nat)
    requires Frame(a, b, lo1, hi1) && Frame(b, c, lo2, hi2)
    requires lo <= lo1 && hi1 <= hi && lo <= lo2 && hi2 <= hi
    ensures Frame(a, c, lo, hi)
  {
  }

  /** A region resolvable before a frame is resolvable after it. */
  lemma FrameResolvable<C>(a: Arena<C>, b: Arena<C>, lo: nat, hi: nat, o: nat, n: nat)
    requires Frame(a, b, lo, hi)
    ensures a.Resolvable(o, n) <==> b.Resolvable(o, n)
  {
  }

  /** Reads outside a frame see the old cells. */
  lemma FrameLoad<C>(a: Arena<C>, b: Arena<C>, lo: nat, hi: nat, o: nat, n: nat)
    requires Frame(a, b, lo, hi) && a.Resolvable(o, n)
    requires o + n <= lo || hi <= o
    ensures b.Resolvable(o, n)
    ensures b.Load(b.Offset(o), n) == a.Load(a.Offset(o), n)
  {
    forall k | o <= k < o + n
      ensures b.Cells()[k] == a.Cells()[k]
    {
    }
  }

  /** Cells below the old cursor are the same cells after growth. */
  lemma CellsSurviveGrowth<C>(a: Arena<C>, b: Arena<C>, o: nat, n: nat)
    requires Grows(a, b) && o + n <= a.Cursor()
    ensures o + n <= |a.Cells()| && o + n <= |b.Cells()|
    ensures b.Cells()[o..o + n] == a.Cells()[o..o + n]
  {
    var c := a.Cursor();
    assert b.Cells()[o..o + n] == b.Cells()[..c][o..o + n];
    assert a.Cells()[o..o + n] == a.Cells()[..c][o..o + n];
  }

  /** Why a `Ptr` outlives relocation: cells below the cursor read back the same
      after any later allocation, even one that moved the buffer. A read
      re-resolves its offset against the current buffer. */
  lemma LoadSurvivesGrowth<C>(a: Arena<C>, b: Arena<C>, o: nat, n: nat)
    requires Grows(a, b) && o < a.Cursor() && o + n <= a.Cursor()
    ensures a.Resolvable(o, n) && b.Resolvable(o, n)
    ensures b.Load(b.Offset(o), n) == a.Load(a.Offset(o), n)
  {
    CellsSurviveGrowth(a, b, o, n);
  }
}
