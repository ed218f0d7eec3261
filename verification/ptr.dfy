/** ptr.go: the logical pointer, an (allocator, offset) pair resolved
    against the allocator's current buffer on every access. */
module Ptrs {
  import opened Base
  import opened Buffers
  import opened Arenas

  /** `Ptr[T]`: a byte offset and the allocator that issued it. A pointer
      is null when it names no allocator; offset 0 is an ordinary
      offset. */
  datatype Ptr<T(!new)> = Ptr(offset: nat, alloc: Option<nat>)
  {
    /** `IsNull`: no allocator, whatever the offset (`NullIffNoAllocator`
        below relates it to the zero `Ptr` and to issued pointers). */
    predicate IsNull(): (r: bool)
      ensures r <==> alloc == None
    {
      alloc.None?
    }

    /** `Null` as written: its receiver is a copy, so the caller's
        pointer is what it was before the call. */
    function Null(): (p: Ptr<T>)
      ensures p == this
    {
      this
    }

    /** What `Null`'s comment promises: the pointer no longer names an
        allocator. */
    function Nulled(): (p: Ptr<T>)
      ensures p.IsNull() && p.offset == offset
    {
      Ptr(offset, None)
    }

    /** The pointer was issued by `a`. */
    predicate Into<C>(a: Arena<C>) {
      alloc == Some(a.id)
    }

    /** `Deref` would not panic: this `Ptr` is bound to `a`, and `a` can
        resolve the cells of a T at the offset. */
    ghost predicate Resolves<C>(a: Arena<C>, l: Layout<C, T>) {
      Into(a) && a.Valid() && a.Resolvable(offset, l.size)
    }

    /** `Deref`: the value of type T whose cells sit at the offset of the
        allocator's current buffer. The address is looked up through
        `Offset` on every call and never kept. */
    function Deref<C>(a: Arena<C>, l: Layout<C, T>): (v: T)
      requires Resolves(a, l)
      ensures v == l.dec(a.Cells()[offset..offset + l.size])
    {
      l.dec(a.Load(a.Offset(offset), l.size))
    }

    /** `Set`: writes `v` at the offset; `Deref` then yields `v`, and
        no cell outside the value's own changes. */
    function Set<C>(a: Arena<C>, l: Layout<C, T>, v: T): (r: Arena<C>)
      requires Resolves(a, l) && l.Valid()
      ensures Frame(a, r, offset, offset + l.size)
      ensures Resolves(r, l) && Deref(r, l) == v
    {
      a.Store(a.Offset(offset), l.enc(v))
    }

    /** `bytes`: the `Sizeof(T)` cells of the value, from the offset. */
    function Bytes<C>(a: Arena<C>, l: Layout<C, T>): (cs: seq<C>)
      requires Resolves(a, l)
      ensures |cs| == l.size && cs == a.Cells()[offset..offset + l.size]
      ensures l.dec(cs) == Deref(a, l)
    {
      a.Load(a.Offset(offset), l.size)
    }
  }

  /** The zero `Ptr[T]{}`. */
  function NullPtr<T(!new)>(): Ptr<T> {
    Ptr(0, None)
  }

  /** Nullness is the absence of an allocator: the zero pointer is null,
      and a pointer at offset 0 that names an allocator is not. */
  lemma NullIffNoAllocator<T(!new)>(p: Ptr<T>, id: nat)
    ensures p.IsNull() <==> p.alloc == None
    ensures var z: Ptr<T> := Ptr(0, Some(id)); NullPtr<T>().IsNull() && !z.IsNull()
  {
  }

  /** Calling `Null` as written leaves a live pointer live. */
  lemma NullKeepsPointer<T(!new)>(p: Ptr<T>)
    requires !p.IsNull()
    ensures !p.Null().IsNull() && p.Nulled().IsNull()
  {
  }

  /** Pointer stability: a value below the cursor reads back the same
      after any sequence of allocations, including ones that replaced
      the buffer. */
  lemma DerefSurvivesGrowth<C, T(!new)>(p: Ptr<T>, a: Arena<C>, b: Arena<C>, l: Layout<C, T>)
    requires Grows(a, b) && p.Into(a)
    requires p.offset < a.Cursor() && p.offset + l.size <= a.Cursor()
    ensures p.Resolves(a, l) && p.Resolves(b, l)
    ensures p.Deref(b, l) == p.Deref(a, l)
  {
    LoadSurvivesGrowth(a, b, p.offset, l.size);
  }

  /** Writing through one pointer leaves a value at disjoint cells
      unchanged. */
  lemma SetLeavesOthers<C, T(!new), U(!new)>(p: Ptr<T>, q: Ptr<U>, a: Arena<C>, l: Layout<C, T>, m: Layout<C, U>, v: T)
    requires p.Resolves(a, l) && q.Resolves(a, m) && l.Valid()
    requires p.offset + l.size <= q.offset || q.offset + m.size <= p.offset
    ensures q.Resolves(p.Set(a, l, v), m)
    ensures q.Deref(p.Set(a, l, v), m) == q.Deref(a, m)
  {
    FrameLoad(a, p.Set(a, l, v), p.offset, p.offset + l.size, q.offset, m.size);
  }
}
