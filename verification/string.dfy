/** string.go: a byte array with an owned copy, a borrowed view and a
    three-way comparison. Go strings are byte sequences, so a Go
    `string` is a `seq<byte>` here. */
module Strings {
  import opened Base
  import opened Buffers
  import opened Arith
  import opened Arenas
  import opened Ptrs
  import opened Arrays

  /** `type String Array[byte]`. */
  type String = Array<byte>

  /** A byte occupies one cell and needs no alignment. */
  ghost predicate ByteLayout<C>(bl: Layout<C, byte>) {
    bl.Valid() && bl.size == 1 && bl.align == 1
  }

  /** `p` points at a string header in `s` whose bytes are `content`,
      stored at or above the cursor of `a`. */
  ghost predicate HoldsString<C>(a: Arena<C>, s: Arena<C>, bl: Layout<C, byte>, hl: Layout<C, String>, p: Ptr<String>, content: seq<byte>) {
    && p.Resolves(s, hl)
    && var h := p.Deref(s, hl);
       && h.len == |content|
       && Placed(s, bl, h) && Viewable(s, bl, h)
       && a.Cursor() <= h.data.offset
       && Slice(s, bl, h) == content
  }

  /** `NewStringFromBytes` with the allocation error reported: a string
      of `len(b)` bytes holding a copy of `b`. */
  function NewStringFromBytesChecked<C>(a: Arena<C>, bl: Layout<C, byte>, hl: Layout<C, String>, b: seq<byte>): (r: Outcome<Arena<C>, Ptr<String>>)
    requires a.Valid() && ByteLayout(bl) && HeaderLayout(hl)
    ensures Grows(a, r.state)
    ensures r.err.Some? ==> a.Page? && r.err == Some(ErrMemoryExhausted) && r.value.IsNull()
    ensures a.Expanding? ==> r.err.None?
    ensures r.err.None? ==> HoldsString(a, r.state, bl, hl, r.value, b)
    ensures a.Page? ==> (r.err.None? <==> ArrayEnd(a.Cursor(), bl, |b|) <= PageAlloc.PageSize)
  {
    var r := NewArrayFrom(a, bl, hl, |b|, b);
    if r.err.Some? then r
    else
      var h := r.value.Deref(r.state, hl);
      assert Slice(r.state, bl, h) == Slice(r.state, bl, h)[..|b|];
      r
  }

  /** `NewStringFromBytes` as written: when `NewArray` fails it returns
      the null pointer and drops the error. */
  function NewStringFromBytes<C>(a: Arena<C>, bl: Layout<C, byte>, hl: Layout<C, String>, b: seq<byte>): (r: Outcome<Arena<C>, Ptr<String>>)
    requires a.Valid() && ByteLayout(bl) && HeaderLayout(hl)
    ensures Grows(a, r.state)
    ensures r.err == None
    ensures r.value.IsNull() || HoldsString(a, r.state, bl, hl, r.value, b)
    ensures a.Expanding? ==> HoldsString(a, r.state, bl, hl, r.value, b)
    ensures NewStringFromBytesChecked(a, bl, hl, b).err.None? ==> r == NewStringFromBytesChecked(a, bl, hl, b)
    ensures a.Page? ==> (r.value.IsNull() <==> ArrayEnd(a.Cursor(), bl, |b|) > PageAlloc.PageSize)
  {
    var c := NewStringFromBytesChecked(a, bl, hl, b);
    if c.err.Some? then Outcome(c.state, NullPtr(), None) else c
  }

  /** On a full page `NewStringFromBytes`, and `NewString` through it,
      allocate nothing, return the null pointer, and report no error. */
  lemma NewStringFromBytesSwallowsError<C>(a: Arena<C>, bl: Layout<C, byte>, hl: Layout<C, String>, b: seq<byte>)
    requires a.Valid() && ByteLayout(bl) && HeaderLayout(hl)
    requires a.Page? && a.Cursor() == PageAlloc.PageSize
    ensures NewStringFromBytes(a, bl, hl, b).err == None
    ensures NewStringFromBytes(a, bl, hl, b).value.IsNull()
    ensures NewStringFromBytesChecked(a, bl, hl, b).err == Some(ErrMemoryExhausted)
    ensures NewString(a, bl, hl, b).err == None && NewString(a, bl, hl, b).value.IsNull()
  {
  }

  /** `NewString`: the bytes of the Go string `s`, through the
      unchecked `NewStringFromBytes`, so it too reports no error and
      gives the null pointer when the page is full. */
  function NewString<C>(a: Arena<C>, bl: Layout<C, byte>, hl: Layout<C, String>, s: seq<byte>): (r: Outcome<Arena<C>, Ptr<String>>)
    requires a.Valid() && ByteLayout(bl) && HeaderLayout(hl)
    ensures Grows(a, r.state)
    ensures r.err == None
    ensures r.value.IsNull() || HoldsString(a, r.state, bl, hl, r.value, s)
    ensures a.Expanding? ==> HoldsString(a, r.state, bl, hl, r.value, s)
    ensures NewStringFromBytesChecked(a, bl, hl, s).err.None? ==> r == NewStringFromBytesChecked(a, bl, hl, s)
    ensures NewStringFromBytesChecked(a, bl, hl, s).err.Some? ==> r.value.IsNull()
    ensures a.Page? ==> (r.value.IsNull() <==> ArrayEnd(a.Cursor(), bl, |s|) > PageAlloc.PageSize)
  {
    NewStringFromBytes(a, bl, hl, s)
  }

  /** `String()`: a copy of the bytes, owned by the caller. */
  function Owned<C>(a: Arena<C>, bl: Layout<C, byte>, s: String): (r: seq<byte>)
    requires Viewable(a, bl, s)
    ensures |r| == s.len && r == Text(a, bl, s)
    ensures forall i :: 0 <= i < |r| ==> r[i] == Elem(a, bl, s, i)
  {
    Slice(a, bl, s)
  }

  /** What `Cast` needs: an empty string is never dereferenced. */
  ghost predicate Readable<C>(a: Arena<C>, bl: Layout<C, byte>, s: String) {
    s.len == 0 || Viewable(a, bl, s)
  }

  /** The bytes a string holds; the empty string holds none, wherever its
      data pointer points. */
  ghost function Text<C>(a: Arena<C>, bl: Layout<C, byte>, s: String): seq<byte>
    requires Readable(a, bl, s)
  {
    if s.len == 0 then [] else Slice(a, bl, s)
  }

  /** The result of `Cast`: the explicit empty string, or a Go string
      that aliases `len` bytes of the buffer from a raw address. */
  datatype View = EmptyView | Aliased(at: Address, len: nat)

  /** The bytes a view shows now; only a view into the current buffer
      can be read. */
  function ReadView<C>(a: Arena<C>, bl: Layout<C, byte>, v: View): (r: seq<byte>)
    requires ByteLayout(bl)
    requires v.Aliased? ==> a.Live(v.at, v.len)
    ensures |r| == (if v.Aliased? then v.len else 0)
  {
    match v
    case EmptyView => []
    case Aliased(at, n) =>
      seq(n, i requires 0 <= i < n && a.Live(at, n) => bl.dec(a.Load(Address(at.buffer, at.index + i), 1)))
  }

  /** `Cast`: no copy. The empty string for length 0, otherwise a view
      of the bytes at the data pointer's current address. */
  function Cast<C>(a: Arena<C>, bl: Layout<C, byte>, s: String): (v: View)
    requires Readable(a, bl, s) && ByteLayout(bl)
    ensures s.len == 0 <==> v.EmptyView?
    ensures v.Aliased? ==> a.Live(v.at, v.len)
  {
    if Length(s) == 0 then EmptyView
    else
      MulIsProduct(s.len, 1);
      Aliased(a.Offset(s.data.offset), s.len)
  }

  /** Right after `Cast`, the view shows exactly the string's bytes. */
  lemma CastShowsContent<C>(a: Arena<C>, bl: Layout<C, byte>, s: String)
    requires Readable(a, bl, s) && ByteLayout(bl)
    ensures ReadView(a, bl, Cast(a, bl, s)) == Text(a, bl, s)
  {
    if s.len > 0 {
      forall i | 0 <= i < s.len
        ensures ReadView(a, bl, Cast(a, bl, s))[i] == Elem(a, bl, s, i)
      {
        MulIsProduct(i, 1);
      }
    }
  }

  /** A view aliases the buffer: a later write into the string shows
      through it, while a copy taken by `String()` keeps the old bytes. */
  lemma ViewAliasesCopyDoesNot<C>(a: Arena<C>, bl: Layout<C, byte>, s: String, i: nat, x: byte)
    requires Viewable(a, bl, s) && ByteLayout(bl) && i < s.len
    ensures var b := SetElem(a, bl, s, i, x);
      && Cast(a, bl, s).Aliased? && b.Live(Cast(a, bl, s).at, s.len)
      && ReadView(b, bl, Cast(a, bl, s)) == Owned(a, bl, s)[i := x]
      && ReadView(b, bl, Cast(a, bl, s)) == Owned(b, bl, s)
  {
    var b := SetElem(a, bl, s, i, x);
    CastShowsContent(b, bl, s);
    assert Cast(b, bl, s) == Cast(a, bl, s);
  }

  /** On the expanding allocator, a view taken before an allocation
      still aliases the current buffer afterwards exactly when that
      allocation fit the capacity; one that relocates leaves the view on
      the old buffer. */
  lemma ViewDiesOnRelocation<C>(a: Arena<C>, bl: Layout<C, byte>, s: String, size: nat, alignment: nat)
    requires Viewable(a, bl, s) && ByteLayout(bl) && s.len > 0
    requires a.Expanding? && alignment > 0
    ensures var b := a.Alloc(size, alignment).state;
      b.Live(Cast(a, bl, s).at, s.len) <==> a.Cursor() + size <= |a.Cells()|
  {
  }

  /** Go's `cmp.Compare` on strings: -1, 0 or +1 by lexicographic byte
      order. */
  function Compare(x: seq<byte>, y: seq<byte>): (r: int)
    ensures -1 <= r <= 1
    ensures r == 0 <==> x == y
  {
    if |x| == 0 && |y| == 0 then 0
    else if |x| == 0 then -1
    else if |y| == 0 then 1
    else if x[0] < y[0] then -1
    else if x[0] > y[0] then 1
    else
      var r := Compare(x[1..], y[1..]);
      assert x == [x[0]] + x[1..] && y == [y[0]] + y[1..];
      r
  }

  /** Swapping the operands negates the result. */
  lemma {:induction false} CompareAntisymmetric(x: seq<byte>, y: seq<byte>)
    ensures Compare(x, y) == -Compare(y, x)
  {
    if |x| > 0 && |y| > 0 && x[0] == y[0] {
      CompareAntisymmetric(x[1..], y[1..]);
    }
  }

  /** The order is transitive. */
  lemma {:induction false} CompareTransitive(x: seq<byte>, y: seq<byte>, z: seq<byte>)
    requires Compare(x, y) < 0 && Compare(y, z) < 0
    ensures Compare(x, z) < 0
  {
    if |x| > 0 && |y| > 0 && |z| > 0 && x[0] == y[0] && y[0] == z[0] {
      CompareTransitive(x[1..], y[1..], z[1..]);
    }
  }

  /** `k` witnesses `LexLess(x, y)`. */
  ghost predicate LessAt(x: seq<byte>, y: seq<byte>, k: nat) {
    k <= |x| && k <= |y| && x[..k] == y[..k] &&
      ((k == |x| && k < |y|) || (k < |x| && k < |y| && x[k] < y[k]))
  }

  /** `x` sorts before `y` by the textbook definition: a proper prefix,
      or a smaller byte at the first difference. */
  ghost predicate LexLess(x: seq<byte>, y: seq<byte>) {
    exists k: nat :: LessAt(x, y, k)
  }

  lemma ConsPrefix(x: seq<byte>, k: nat)
    requires k < |x|
    ensures x[..k + 1] == [x[0]] + x[1..][..k]
  {
    forall i | 0 <= i < k + 1
      ensures x[..k + 1][i] == ([x[0]] + x[1..][..k])[i]
    {
      if i > 0 {
        assert ([x[0]] + x[1..][..k])[i] == x[1..][..k][i - 1];
      }
    }
  }

  /** With equal first bytes, the order is decided by the tails. */
  lemma LexLessTail(x: seq<byte>, y: seq<byte>)
    requires |x| > 0 && |y| > 0 && x[0] == y[0]
    ensures LexLess(x, y) <==> LexLess(x[1..], y[1..])
  {
    if LexLess(x, y) {
      var k: nat :| LessAt(x, y, k);
      if k == 0 {
        assert false;
      }
      assert x[1..][..k - 1] == x[..k][1..];
      assert y[1..][..k - 1] == y[..k][1..];
      assert LessAt(x[1..], y[1..], k - 1);
    }
    if LexLess(x[1..], y[1..]) {
      var k: nat :| LessAt(x[1..], y[1..], k);
      ConsPrefix(x, k);
      ConsPrefix(y, k);
      assert LessAt(x, y, k + 1);
    }
  }

  /** With different first bytes, the smaller one decides. */
  lemma LexLessHead(x: seq<byte>, y: seq<byte>)
    requires |x| > 0 && |y| > 0 && x[0] != y[0]
    ensures LexLess(x, y) <==> x[0] < y[0]
  {
    assert x[..0] == y[..0];
    if x[0] < y[0] {
      assert LessAt(x, y, 0);
    } else {
      assert !LexLess(x, y);
    }
  }

  /** `Compare` returns -1 exactly for the textbook order. */
  lemma {:induction false} CompareIsLexicographic(x: seq<byte>, y: seq<byte>)
    ensures Compare(x, y) == -1 <==> LexLess(x, y)
  {
    if |y| == 0 {
      assert !LexLess(x, y);
    } else if |x| == 0 {
      assert LessAt(x, y, 0);
    } else if x[0] != y[0] {
      LexLessHead(x, y);
    } else {
      LexLessTail(x, y);
      CompareIsLexicographic(x[1..], y[1..]);
    }
  }

  /** `Cmp`: compares the two strings' `Cast` views. */
  function Cmp<C>(a: Arena<C>, bl: Layout<C, byte>, s: String, t: String): (r: int)
    requires Readable(a, bl, s) && Readable(a, bl, t) && ByteLayout(bl)
    ensures r == Compare(Text(a, bl, s), Text(a, bl, t))
    ensures r == 0 <==> Text(a, bl, s) == Text(a, bl, t)
  {
    CastShowsContent(a, bl, s);
    CastShowsContent(a, bl, t);
    Compare(ReadView(a, bl, Cast(a, bl, s)), ReadView(a, bl, Cast(a, bl, t)))
  }

  /** `Cmp(s, s) == 0` and `Cmp(s, t) == -Cmp(t, s)`. */
  lemma CmpReflexiveAntisymmetric<C>(a: Arena<C>, bl: Layout<C, byte>, s: String, t: String)
    requires Readable(a, bl, s) && Readable(a, bl, t) && ByteLayout(bl)
    ensures Cmp(a, bl, s, s) == 0
    ensures Cmp(a, bl, s, t) == -Cmp(a, bl, t, s)
  {
    CompareAntisymmetric(Text(a, bl, s), Text(a, bl, t));
  }
}
