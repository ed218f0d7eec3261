/** array.go (and its earlier copy bytes.go): a typed array whose header
    `{data, len}` and elements both live in an allocator. Element i of an
    array of T sits at `data + i*Sizeof(T)`. */
module Arrays {
  import opened Base
  import opened Buffers
  import opened Arith
  import opened Arenas
  import opened Ptrs
  import opened Alignment

  /** `Array[T]`: the pointer to the first element and the length. */
  datatype Array<T(!new)> = Array(data: Ptr<T>, len: nat)

  /** `unsafe.Sizeof(Array[T]{})` on a 64-bit target: a uintptr and an
      interface value for the `Ptr`, then an int. */
  const HeaderSize: nat := 32

  /** `unsafe.Alignof(Array[T]{})` on a 64-bit target. */
  const HeaderAlign: nat := 8

  /** The zero header `Array[T]{}`: a null data pointer and length 0. */
  function ZeroArray<T(!new)>(): Array<T> {
    Array(NullPtr(), 0)
  }

  /** A layout for the header that matches its Go size and alignment. */
  ghost predicate HeaderLayout<C, T(!new)>(hl: Layout<C, Array<T>>) {
    hl.Valid() && hl.size == HeaderSize && hl.align == HeaderAlign
  }

  /** `Slice` would not panic: the data pointer names `a` and the
      elements can be resolved from it. */
  ghost predicate Viewable<C, T(!new)>(a: Arena<C>, el: Layout<C, T>, arr: Array<T>) {
    arr.data.Into(a) && a.Valid() && a.Resolvable(arr.data.offset, Mul(arr.len, el.size))
  }

  /** The elements lie in memory the allocator has handed out. */
  ghost predicate Placed<C, T(!new)>(a: Arena<C>, el: Layout<C, T>, arr: Array<T>) {
    && arr.data.Into(a) && a.Valid()
    && arr.data.offset < a.Cursor()
    && arr.data.offset + Mul(arr.len, el.size) <= a.Cursor()
  }

  lemma PlacedViewable<C, T(!new)>(a: Arena<C>, el: Layout<C, T>, arr: Array<T>)
    requires Placed(a, el, arr)
    ensures Viewable(a, el, arr)
  {
    BelowCursorResolvable(a, arr.data.offset, Mul(arr.len, el.size));
  }

  /** Element i, read at `data + i*size` from the address the data
      pointer resolves to. */
  function Elem<C, T(!new)>(a: Arena<C>, el: Layout<C, T>, arr: Array<T>, i: nat): (v: T)
    requires Viewable(a, el, arr) && i < arr.len
    ensures arr.data.offset + Mul(i, el.size) + el.size <= |a.Cells()|
    ensures v == el.dec(a.Cells()[arr.data.offset + Mul(i, el.size)..arr.data.offset + Mul(i, el.size) + el.size])
  {
    var base := a.Offset(arr.data.offset);
    BlockInside(i, arr.len, el.size);
    el.dec(a.Load(Address(base.buffer, base.index + Mul(i, el.size)), el.size))
  }

  /** `Slice`: the `len` elements from the data pointer on, re-read from
      the current buffer on every call. */
  function Slice<C, T(!new)>(a: Arena<C>, el: Layout<C, T>, arr: Array<T>): (s: seq<T>)
    requires Viewable(a, el, arr)
    ensures |s| == arr.len
    ensures forall i :: 0 <= i < arr.len ==> s[i] == Elem(a, el, arr, i)
  {
    seq(arr.len, i requires 0 <= i < arr.len && Viewable(a, el, arr) => Elem(a, el, arr, i))
  }

  /** `Length`: the header's length. */
  function Length<T(!new)>(arr: Array<T>): (n: int)
    ensures n == arr.len
  {
    arr.len
  }

  /** `Length` is the number of elements `Slice` exposes. */
  lemma LengthIsSliceLength<C, T(!new)>(a: Arena<C>, el: Layout<C, T>, arr: Array<T>)
    requires Viewable(a, el, arr)
    ensures Length(arr) == |Slice(a, el, arr)|
  {
  }

  /** `Iter`: the elements in order. */
  function Iter<C, T(!new)>(a: Arena<C>, el: Layout<C, T>, arr: Array<T>): (s: seq<T>)
    requires Viewable(a, el, arr)
    ensures |s| == Length(arr)
    ensures forall i :: 0 <= i < |s| ==> s[i] == Elem(a, el, arr, i)
  {
    Slice(a, el, arr)
  }

  /** `IterIndex`: each element paired with its index, in order. */
  function IterIndex<C, T(!new)>(a: Arena<C>, el: Layout<C, T>, arr: Array<T>): (s: seq<(int, T)>)
    requires Viewable(a, el, arr)
    ensures |s| == Length(arr)
    ensures forall i :: 0 <= i < |s| ==> s[i] == (i, Elem(a, el, arr, i))
  {
    var xs := Slice(a, el, arr);
    seq(|xs|, i requires 0 <= i < |xs| => (i, xs[i]))
  }

  /** An element is unchanged by writes that miss its cells. */
  lemma ElemOutsideFrame<C, T(!new)>(a: Arena<C>, b: Arena<C>, el: Layout<C, T>, arr: Array<T>, j: nat, lo: nat, hi: nat)
    requires Frame(a, b, lo, hi) && Viewable(a, el, arr) && j < arr.len
    requires arr.data.offset + Mul(j, el.size) + el.size <= lo || hi <= arr.data.offset + Mul(j, el.size)
    ensures Viewable(b, el, arr) && Elem(b, el, arr, j) == Elem(a, el, arr, j)
  {
    var o := arr.data.offset + Mul(j, el.size);
    BlockInside(j, arr.len, el.size);
    FrameResolvable(a, b, lo, hi, arr.data.offset, Mul(arr.len, el.size));
    assert Viewable(b, el, arr);
    SameOutside(a.Cells(), b.Cells(), lo, hi, o, el.size);
  }

  /** Two sequences that agree outside `[lo, hi)` agree on any range that
      misses it. */
  lemma SameOutside<X>(x: seq<X>, y: seq<X>, lo: nat, hi: nat, o: nat, n: nat)
    requires |x| == |y| && o + n <= |x|
    requires forall k :: 0 <= k < |x| && (k < lo || hi <= k) ==> y[k] == x[k]
    requires o + n <= lo || hi <= o
    ensures y[o..o + n] == x[o..o + n]
  {
    forall k | o <= k < o + n
      ensures y[k] == x[k]
    {
    }
  }

  /** An array whose cells all miss a frame reads the same after it. */
  lemma SliceOutsideFrame<C, T(!new)>(a: Arena<C>, b: Arena<C>, el: Layout<C, T>, arr: Array<T>, lo: nat, hi: nat)
    requires Frame(a, b, lo, hi) && Viewable(a, el, arr)
    requires arr.data.offset + Mul(arr.len, el.size) <= lo || hi <= arr.data.offset
    ensures Viewable(b, el, arr) && Slice(b, el, arr) == Slice(a, el, arr)
  {
    forall j | 0 <= j < arr.len
      ensures Elem(b, el, arr, j) == Elem(a, el, arr, j)
    {
      BlockInside(j, arr.len, el.size);
      ElemOutsideFrame(a, b, el, arr, j, lo, hi);
    }
  }

  /** Pointer stability for arrays: elements that lie below the cursor
      read the same after any later allocations. */
  lemma SliceSurvivesGrowth<C, T(!new)>(a: Arena<C>, b: Arena<C>, el: Layout<C, T>, arr: Array<T>)
    requires Grows(a, b) && Placed(a, el, arr)
    ensures Placed(b, el, arr) && Viewable(a, el, arr) && Viewable(b, el, arr)
    ensures Slice(b, el, arr) == Slice(a, el, arr)
  {
    PlacedViewable(a, el, arr);
    PlacedViewable(b, el, arr);
    forall j | 0 <= j < arr.len
      ensures Elem(b, el, arr, j) == Elem(a, el, arr, j)
    {
      BlockInside(j, arr.len, el.size);
      CellsSurviveGrowth(a, b, arr.data.offset + Mul(j, el.size), el.size);
    }
  }

  /** `s.Slice()[i] = v`: element i becomes `v`, and only its cells
      change. */
  function SetElem<C, T(!new)>(a: Arena<C>, el: Layout<C, T>, arr: Array<T>, i: nat, v: T): (r: Arena<C>)
    requires Viewable(a, el, arr) && el.Valid() && i < arr.len
    ensures Frame(a, r, arr.data.offset + Mul(i, el.size), arr.data.offset + Mul(i, el.size) + el.size)
    ensures Viewable(r, el, arr) && Slice(r, el, arr) == Slice(a, el, arr)[i := v]
  {
    var base := a.Offset(arr.data.offset);
    BlockInside(i, arr.len, el.size);
    var r := a.Store(Address(base.buffer, base.index + Mul(i, el.size)), el.enc(v));
    SetElemSlice(a, r, el, arr, i, v);
    r
  }

  lemma SetElemSlice<C, T(!new)>(a: Arena<C>, r: Arena<C>, el: Layout<C, T>, arr: Array<T>, i: nat, v: T)
    requires Viewable(a, el, arr) && el.Valid() && i < arr.len
    requires arr.data.offset + Mul(i, el.size) + el.size <= |a.Cells()|
    requires Frame(a, r, arr.data.offset + Mul(i, el.size), arr.data.offset + Mul(i, el.size) + el.size)
    requires r.Cells()[arr.data.offset + Mul(i, el.size)..arr.data.offset + Mul(i, el.size) + el.size] == el.enc(v)
    ensures Viewable(r, el, arr) && Slice(r, el, arr) == Slice(a, el, arr)[i := v]
  {
    var lo := arr.data.offset + Mul(i, el.size);
    FrameResolvable(a, r, lo, lo + el.size, arr.data.offset, Mul(arr.len, el.size));
    assert Viewable(r, el, arr);
    forall j | 0 <= j < arr.len
      ensures Elem(r, el, arr, j) == Slice(a, el, arr)[i := v][j]
    {
      if j == i {
        assert Elem(r, el, arr, j) == el.dec(el.enc(v));
      } else {
        ElemBesideWrite(a, r, el, arr, i, j);
      }
    }
  }

  /** A write to element `i` leaves every other element as it was. */
  lemma ElemBesideWrite<C, T(!new)>(a: Arena<C>, r: Arena<C>, el: Layout<C, T>, arr: Array<T>, i: nat, j: nat)
    requires Viewable(a, el, arr) && i < arr.len && j < arr.len && i != j
    requires Frame(a, r, arr.data.offset + Mul(i, el.size), arr.data.offset + Mul(i, el.size) + el.size)
    ensures Viewable(r, el, arr) && Elem(r, el, arr, j) == Elem(a, el, arr, j)
  {
    var lo := arr.data.offset + Mul(i, el.size);
    if j < i {
      BlocksDisjoint(j, i, el.size);
    } else {
      BlocksDisjoint(i, j, el.size);
    }
    ElemOutsideFrame(a, r, el, arr, j, lo, lo + el.size);
  }

  /** Writes `vs` into elements `from, from+1, ...` in order (what Go's
      `copy` does into a slice); only the array's cells change. */
  function WriteElems<C, T(!new)>(a: Arena<C>, el: Layout<C, T>, arr: Array<T>, from: nat, vs: seq<T>): (r: Arena<C>)
    requires Viewable(a, el, arr) && el.Valid() && from + |vs| <= arr.len
    ensures Frame(a, r, arr.data.offset, arr.data.offset + Mul(arr.len, el.size))
    ensures Viewable(r, el, arr)
    ensures Slice(r, el, arr) == Slice(a, el, arr)[..from] + vs + Slice(a, el, arr)[from + |vs|..]
    decreases |vs|
  {
    if |vs| == 0 then a
    else
      var b := SetElem(a, el, arr, from, vs[0]);
      var r := WriteElems(b, el, arr, from + 1, vs[1..]);
      WriteStep(a, b, r, el, arr, from, vs);
      r
  }

  /** A write to element `from` followed by writes of the rest of `vs`
      after it is the write of all of `vs` at `from`. */
  lemma WriteStep<C, T(!new)>(a: Arena<C>, b: Arena<C>, r: Arena<C>, el: Layout<C, T>, arr: Array<T>, from: nat, vs: seq<T>)
    requires Viewable(a, el, arr) && Viewable(b, el, arr) && Viewable(r, el, arr)
    requires |vs| > 0 && from + |vs| <= arr.len
    requires Frame(a, b, arr.data.offset + Mul(from, el.size), arr.data.offset + Mul(from, el.size) + el.size)
    requires Slice(b, el, arr) == Slice(a, el, arr)[from := vs[0]]
    requires Frame(b, r, arr.data.offset, arr.data.offset + Mul(arr.len, el.size))
    requires Slice(r, el, arr) == Slice(b, el, arr)[..from + 1] + vs[1..] + Slice(b, el, arr)[from + 1 + |vs[1..]|..]
    ensures Frame(a, r, arr.data.offset, arr.data.offset + Mul(arr.len, el.size))
    ensures Slice(r, el, arr) == Slice(a, el, arr)[..from] + vs + Slice(a, el, arr)[from + |vs|..]
  {
    var lo, hi, at := arr.data.offset, arr.data.offset + Mul(arr.len, el.size), arr.data.offset + Mul(from, el.size);
    BlockInside(from, arr.len, el.size);
    MulMonotone(0, from, el.size);
    assert lo <= at && at + el.size <= hi;
    FrameTrans(a, b, r, lo, hi, at, at + el.size, lo, hi);
    SpliceStep(Slice(a, el, arr), Slice(b, el, arr), Slice(r, el, arr), from, vs);
  }

  /** One step of `WriteElems`, on the sequences alone. */
  lemma SpliceStep<T>(s0: seq<T>, s1: seq<T>, s2: seq<T>, from: nat, vs: seq<T>)
    requires |vs| > 0 && from + |vs| <= |s0|
    requires s1 == s0[from := vs[0]]
    requires s2 == s1[..from + 1] + vs[1..] + s1[from + |vs|..]
    ensures s2 == s0[..from] + vs + s0[from + |vs|..]
  {
    assert |s2| == |s0|;
    forall k | 0 <= k < |s2|
      ensures s2[k] == (s0[..from] + vs + s0[from + |vs|..])[k]
    {
      if k < from {
      } else if k < from + |vs| {
      } else {
      }
    }
  }

  /** The post-state of a successful `NewArray`: the header at `p` holds
      `data` and `len`; the elements come first, at or above the old
      cursor, and the header after them ends at the new cursor. */
  ghost predicate Fresh<C, T(!new)>(a: Arena<C>, s: Arena<C>, el: Layout<C, T>, hl: Layout<C, Array<T>>, p: Ptr<Array<T>>, len: nat) {
    && el.Valid() && p.Into(s) && p.Resolves(s, hl)
    && var h := p.Deref(s, hl);
       && h.len == len && h.data.Into(s)
       && a.Cursor() <= h.data.offset
       && h.data.offset + Mul(len, el.size) <= p.offset
       && p.offset + HeaderSize == s.Cursor()
       && (a.Page? ==> h.data.offset % el.align == 0 && p.offset % HeaderAlign == 0)
       && Placed(s, el, h)
  }

  /** Where a page's cursor stands after `NewArray` of `len` elements
      from cursor `c`: the elements at their alignment, then the header
      at its own. Never before `c`. */
  function ArrayEnd<C, T(!new)>(c: nat, el: Layout<C, T>, len: nat): (e: nat)
    requires el.align > 0
    ensures c + Mul(len, el.size) + HeaderSize <= e
  {
    Align(Align(c, el.align) + Mul(len, el.size), HeaderAlign) + HeaderSize
  }

  /** `NewArray`: reserves the elements, then the header, then writes
      the header. An error from either reservation comes back with the
      null pointer; on a page that happens exactly when the header would
      end past the page. */
  function NewArray<C, T(!new)>(a: Arena<C>, el: Layout<C, T>, hl: Layout<C, Array<T>>, len: nat): (r: Outcome<Arena<C>, Ptr<Array<T>>>)
    requires a.Valid() && el.Valid() && HeaderLayout(hl)
    ensures Grows(a, r.state)
    ensures r.err.Some? ==> a.Page? && r.err == Some(ErrMemoryExhausted) && r.value == NullPtr()
    ensures a.Expanding? ==> r.err.None?
    ensures r.err.None? ==> Fresh(a, r.state, el, hl, r.value, len)
    ensures a.Page? ==> (r.err.None? <==> ArrayEnd(a.Cursor(), el, len) <= PageAlloc.PageSize)
    ensures a.Page? && r.err.None? ==> r.state.Cursor() == ArrayEnd(a.Cursor(), el, len)
  {
    var d := a.Alloc(Mul(len, el.size), el.align);
    if d.err.Some? then Outcome(d.state, NullPtr(), d.err)
    else
      var h := d.state.Alloc(hl.size, hl.align);
      if h.err.Some? then
        GrowsTrans(a, d.state, h.state);
        Outcome(h.state, NullPtr(), h.err)
      else
        var p: Ptr<Array<T>> := Ptr(h.value, Some(a.id));
        BelowCursorResolvable(h.state, h.value, hl.size);
        var s := p.Set(h.state, hl, Array(Ptr(d.value, Some(a.id)), len));
        GrowsTrans(a, d.state, h.state);
        GrowsThenFrame(a, h.state, s, h.value, h.value + hl.size);
        Outcome(s, p, None)
  }

  /** On an empty page, an array whose elements leave room for the
      header and one alignment gap is always allocated. */
  lemma SmallArrayFitsEmptyPage<C, T(!new)>(a: Arena<C>, el: Layout<C, T>, hl: Layout<C, Array<T>>, len: nat)
    requires a.Valid() && el.Valid() && HeaderLayout(hl)
    requires a.Page? && a.Cursor() == 0
    requires Mul(len, el.size) + HeaderAlign + HeaderSize <= PageAlloc.PageSize
    ensures NewArray(a, el, hl, len).err.None?
  {
  }

  /** The post-state of `NewArrayFrom`: the header at `p` describes an
      array of `size` elements at or above the old cursor whose first
      elements are `vs`. */
  ghost predicate Filled<C, T(!new)>(a: Arena<C>, s: Arena<C>, el: Layout<C, T>, hl: Layout<C, Array<T>>, p: Ptr<Array<T>>, size: nat, vs: seq<T>) {
    && p.Resolves(s, hl)
    && var h := p.Deref(s, hl);
       && h.len == size && |vs| <= size
       && Placed(s, el, h) && Viewable(s, el, h)
       && a.Cursor() <= h.data.offset
       && Slice(s, el, h)[..|vs|] == vs
  }

  /** A new array of `size` elements whose first elements are copied
      from `vs`: `NewArray` followed by Go's `copy` into its slice. */
  function NewArrayFrom<C, T(!new)>(a: Arena<C>, el: Layout<C, T>, hl: Layout<C, Array<T>>, size: nat, vs: seq<T>): (r: Outcome<Arena<C>, Ptr<Array<T>>>)
    requires a.Valid() && el.Valid() && HeaderLayout(hl) && |vs| <= size
    ensures Grows(a, r.state)
    ensures r.err.Some? ==> a.Page? && r.err == Some(ErrMemoryExhausted) && r.value == NullPtr()
    ensures a.Expanding? ==> r.err.None?
    ensures r.err.None? ==> Filled(a, r.state, el, hl, r.value, size, vs)
    ensures a.Page? ==> (r.err.None? <==> ArrayEnd(a.Cursor(), el, size) <= PageAlloc.PageSize)
    ensures a.Page? && r.err.None? ==> r.state.Cursor() == ArrayEnd(a.Cursor(), el, size)
  {
    var b := NewArray(a, el, hl, size);
    if b.err.Some? then b
    else
      var h := b.value.Deref(b.state, hl);
      PlacedViewable(b.state, el, h);
      var c := WriteElems(b.state, el, h, 0, vs);
      FreshThenWritten(a, b.state, c, el, hl, b.value, size, vs);
      Outcome(c, b.value, None)
  }

  /** Writing `vs` into a freshly allocated array leaves its header in
      place and only touches cells above the old cursor. */
  lemma FreshThenWritten<C, T(!new)>(a: Arena<C>, b: Arena<C>, c: Arena<C>, el: Layout<C, T>, hl: Layout<C, Array<T>>, p: Ptr<Array<T>>, size: nat, vs: seq<T>)
    requires Grows(a, b) && Fresh(a, b, el, hl, p, size) && |vs| <= size
    requires Viewable(b, el, p.Deref(b, hl))
    requires c == WriteElems(b, el, p.Deref(b, hl), 0, vs)
    ensures Grows(a, c) && Filled(a, c, el, hl, p, size, vs)
  {
    var h := p.Deref(b, hl);
    var lo, hi := h.data.offset, h.data.offset + Mul(size, el.size);
    assert Frame(b, c, lo, hi);
    FrameLoad(b, c, lo, hi, p.offset, hl.size);
    assert p.Deref(c, hl) == h;
    GrowsThenFrame(a, b, c, lo, hi);
    assert Placed(c, el, h);
    SpliceFront(Slice(b, el, h), vs);
    assert Slice(c, el, h)[..|vs|] == vs;
  }

  /** Writing `vs` at the front of `s` makes it the prefix. */
  lemma SpliceFront<T>(s: seq<T>, vs: seq<T>)
    requires |vs| <= |s|
    ensures (s[..0] + vs + s[|vs|..])[..|vs|] == vs
  {
    assert s[..0] + vs + s[|vs|..] == vs + s[|vs|..];
  }

  /** `b` is an expansion of `arr` to `size` elements in `s`: fresh
      storage at or above the old cursor, and the old elements as its
      first `arr.len` elements. */
  ghost predicate Expanded<C, T(!new)>(a: Arena<C>, s: Arena<C>, el: Layout<C, T>, arr: Array<T>, b: Array<T>, size: nat) {
    && Viewable(a, el, arr) && arr.len < size
    && b.len == size && Placed(s, el, b) && Viewable(s, el, b)
    && a.Cursor() <= b.data.offset
    && Slice(s, el, b)[..arr.len] == Slice(a, el, arr)
  }

  /** `Expand` with the allocation error reported, as the rest of the
      package needs it: a new array of `size` elements holding a copy of
      the old ones, the old array untouched. */
  function TryExpand<C, T(!new)>(a: Arena<C>, el: Layout<C, T>, hl: Layout<C, Array<T>>, arr: Array<T>, size: nat): (r: Outcome<Arena<C>, Array<T>>)
    requires a.Valid() && el.Valid() && HeaderLayout(hl) && Placed(a, el, arr) && arr.len < size
    ensures Grows(a, r.state)
    ensures r.err.Some? ==> a.Page? && r.err == Some(ErrMemoryExhausted) && r.value == ZeroArray()
    ensures a.Expanding? ==> r.err.None?
    ensures Placed(r.state, el, arr) && Viewable(a, el, arr) && Viewable(r.state, el, arr)
    ensures Slice(r.state, el, arr) == Slice(a, el, arr)
    ensures r.err.None? ==> Expanded(a, r.state, el, arr, r.value, size)
    ensures a.Page? ==> (r.err.None? <==> ArrayEnd(a.Cursor(), el, size) <= PageAlloc.PageSize)
    ensures a.Page? && r.err.None? ==> r.state.Cursor() == ArrayEnd(a.Cursor(), el, size)
  {
    PlacedViewable(a, el, arr);
    var b := NewArrayFrom(a, el, hl, size, Slice(a, el, arr));
    SliceSurvivesGrowth(a, b.state, el, arr);
    if b.err.Some? then Outcome(b.state, ZeroArray(), b.err)
    else Outcome(b.state, b.value.Deref(b.state, hl), None)
  }

  /** `Expand` as written: the allocation error is dropped, and a failed
      expansion yields the zero header with no error. Panics (the
      requirement) unless `size` exceeds the length. */
  function Expand<C, T(!new)>(a: Arena<C>, el: Layout<C, T>, hl: Layout<C, Array<T>>, arr: Array<T>, size: nat): (r: Outcome<Arena<C>, Array<T>>)
    requires a.Valid() && el.Valid() && HeaderLayout(hl) && Placed(a, el, arr) && arr.len < size
    ensures r.err == None
    ensures Grows(a, r.state)
    ensures Placed(r.state, el, arr) && Viewable(a, el, arr) && Viewable(r.state, el, arr)
    ensures Slice(r.state, el, arr) == Slice(a, el, arr)
    ensures r.value == ZeroArray() || Expanded(a, r.state, el, arr, r.value, size)
    ensures a.Expanding? ==> Expanded(a, r.state, el, arr, r.value, size)
    ensures TryExpand(a, el, hl, arr, size).err.None? ==> r == TryExpand(a, el, hl, arr, size)
    ensures a.Page? ==> (r.value == ZeroArray() <==> ArrayEnd(a.Cursor(), el, size) > PageAlloc.PageSize)
  {
    var t := TryExpand(a, el, hl, arr, size);
    if t.err.Some? then Outcome(t.state, ZeroArray(), None) else t
  }

  /** On a full page `Expand` fails to allocate yet reports no error,
      while `TryExpand` reports `ErrMemoryExhausted`. */
  lemma ExpandSwallowsError<C, T(!new)>(a: Arena<C>, el: Layout<C, T>, hl: Layout<C, Array<T>>, arr: Array<T>, size: nat)
    requires a.Valid() && el.Valid() && HeaderLayout(hl) && Placed(a, el, arr) && arr.len < size
    requires a.Page? && a.Cursor() == PageAlloc.PageSize
    ensures Expand(a, el, hl, arr, size).err == None
    ensures Expand(a, el, hl, arr, size).value == ZeroArray()
    ensures TryExpand(a, el, hl, arr, size).err == Some(ErrMemoryExhausted)
  {
  }
}
