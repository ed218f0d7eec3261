/** `New` and `Must` of alloc.go. */
module Alloc {
  import opened Base
  import opened Buffers
  import opened Arenas
  import opened Ptrs

  /** `New[T]` as written: asks the allocator for `Sizeof(T)` cells at
      `Alignof(T)`, passes its error through, and returns a pointer
      naming the allocator even when the allocation failed. */
  function New<C, T(!new)>(a: Arena<C>, l: Layout<C, T>): (r: Outcome<Arena<C>, Ptr<T>>)
    requires a.Valid() && l.Valid()
    ensures Grows(a, r.state)
    ensures r.err == a.Alloc(l.size, l.align).err
    ensures r.state == a.Alloc(l.size, l.align).state && r.value.offset == a.Alloc(l.size, l.align).value
    ensures r.value.Into(a) && !r.value.IsNull()
    ensures r.err.Some? ==> r.state == a && r.value.offset == 0
    ensures r.err.None? ==>
      && a.Cursor() <= r.value.offset
      && r.value.offset + l.size == r.state.Cursor()
      && (a.Page? ==> r.value.offset % l.align == 0)
  {
    var al := a.Alloc(l.size, l.align);
    Outcome(al.state, Ptr(al.value, Some(a.id)), al.err)
  }

  /** `New` as its callers need it: a null pointer whenever an error is
      returned, otherwise what `New` returns. */
  function NewChecked<C, T(!new)>(a: Arena<C>, l: Layout<C, T>): (r: Outcome<Arena<C>, Ptr<T>>)
    requires a.Valid() && l.Valid()
    ensures Grows(a, r.state)
    ensures r.err == a.Alloc(l.size, l.align).err
    ensures r.err.Some? <==> r.value.IsNull()
    ensures r.err.None? ==> r == New(a, l)
  {
    var n := New(a, l);
    if n.err.Some? then Outcome(n.state, NullPtr(), n.err) else n
  }

  /** A full page makes `New` fail, yet the pointer it returns is not
      null. */
  lemma NewErrorNotNull<C, T(!new)>(a: Arena<C>, l: Layout<C, T>)
    requires a.Valid() && l.Valid() && a.Page? && a.Cursor() == PageAlloc.PageSize && l.size > 0
    ensures New(a, l).err == Some(ErrMemoryExhausted)
    ensures !New(a, l).value.IsNull()
    ensures NewChecked(a, l).value.IsNull()
  {
  }

  /** `Must`: the value when there is no error; an error panics. */
  function Must<T>(v: T, err: Option<Error>): (r: T)
    requires err == None
    ensures r == v
  {
    v
  }
}
