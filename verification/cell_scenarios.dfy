/** The container tests of array_test.go and object_test.go. Each cell
    of the buffer holds either nothing or the whole of one Go value, in
    the value's first cell; the rest of its `Sizeof` cells are blank.
    This keeps headers and elements apart without a byte encoding of
    Go's interface values. */
module CellScenarios {
  import opened Base
  import opened Buffers
  import opened Arith
  import opened ExpandingAlloc
  import opened Arenas
  import opened Ptrs
  import opened Arrays
  import opened Strings
  import opened Objects

  /** One cell: blank, or the start of a value of one of the types the
      tests store. */
  datatype Cell =
    | Blank
    | B(b: byte)
    | I(i: int)
    | IntArray(ia: Array<int>)
    | ByteArray(ba: Array<byte>)
    | StringArray(sa: Array<String>)
    | IntObject(io: Object<int, int>)
    | StringObject(so: Object<String, String>)

  function Blanks(n: nat): seq<Cell> {
    seq(n, _ => Blank)
  }

  /** `byte`: one cell, alignment 1. */
  const ByteCell: Layout<Cell, byte> :=
    Layout(1, 1, 0, (v: byte) => [B(v)], (cs: seq<Cell>) => if |cs| > 0 && cs[0].B? then cs[0].b else 0)

  /** Go's `int` on a 64-bit target: eight cells, alignment 8. */
  const IntCell: Layout<Cell, int> :=
    Layout(8, 8, 0, (v: int) => [I(v)] + Blanks(7), (cs: seq<Cell>) => if |cs| > 0 && cs[0].I? then cs[0].i else 0)

  const IntArrayCell: Layout<Cell, Array<int>> :=
    Layout(HeaderSize, HeaderAlign, ZeroArray(), (v: Array<int>) => [IntArray(v)] + Blanks(HeaderSize - 1),
      (cs: seq<Cell>) => if |cs| > 0 && cs[0].IntArray? then cs[0].ia else ZeroArray())

  const StringCell: Layout<Cell, String> :=
    Layout(HeaderSize, HeaderAlign, ZeroArray(), (v: String) => [ByteArray(v)] + Blanks(HeaderSize - 1),
      (cs: seq<Cell>) => if |cs| > 0 && cs[0].ByteArray? then cs[0].ba else ZeroArray())

  const StringArrayCell: Layout<Cell, Array<String>> :=
    Layout(HeaderSize, HeaderAlign, ZeroArray(), (v: Array<String>) => [StringArray(v)] + Blanks(HeaderSize - 1),
      (cs: seq<Cell>) => if |cs| > 0 && cs[0].StringArray? then cs[0].sa else ZeroArray())

  const IntObjectCell: Layout<Cell, Object<int, int>> :=
    Layout(ObjectSize, ObjectAlign, Object(ZeroArray(), ZeroArray(), 0), (v: Object<int, int>) => [IntObject(v)] + Blanks(ObjectSize - 1),
      (cs: seq<Cell>) => if |cs| > 0 && cs[0].IntObject? then cs[0].io else Object(ZeroArray(), ZeroArray(), 0))

  const StringObjectCell: Layout<Cell, Object<String, String>> :=
    Layout(ObjectSize, ObjectAlign, Object(ZeroArray(), ZeroArray(), 0), (v: Object<String, String>) => [StringObject(v)] + Blanks(ObjectSize - 1),
      (cs: seq<Cell>) => if |cs| > 0 && cs[0].StringObject? then cs[0].so else Object(ZeroArray(), ZeroArray(), 0))

  /** The layouts of `Object[int, int]`. */
  function IntObjectLayouts(): Layouts<Cell, int, int> {
    Layouts(IntCell, IntCell, IntArrayCell, IntArrayCell, IntObjectCell)
  }

  /** The layouts of `Object[String, String]`. */
  function StringObjectLayouts(): Layouts<Cell, String, String> {
    Layouts(StringCell, StringCell, StringArrayCell, StringArrayCell, StringObjectCell)
  }

  /** Every layout above keeps its values apart and round-trips them. */
  lemma CellLayoutsValid()
    ensures ByteLayout(ByteCell) && IntCell.Valid() && HeaderLayout(IntArrayCell) && HeaderLayout(StringCell)
    ensures IntObjectLayouts().Valid() && StringObjectLayouts().Valid()
  {
  }

  /** A fresh expanding allocator whose cells start blank. */
  function FreshArena(): (a: Arena<Cell>)
    ensures a.Valid() && a.Expanding? && a.Cursor() == 0
  {
    Expanding(0, NewExpandingAllocator(Blank))
  }

  // ----- TestSlice -----

  /** The test's fill loop: every index of an int array's slice is
      written with the index itself. */
  method FillIndices<C>(a: Arena<C>, el: Layout<C, int>, arr: Array<int>) returns (b: Arena<C>)
    requires Viewable(a, el, arr) && el.Valid()
    ensures Frame(a, b, arr.data.offset, arr.data.offset + Mul(arr.len, el.size))
    ensures Viewable(b, el, arr) && Slice(b, el, arr) == seq(arr.len, i => i)
  {
    var lo, hi := arr.data.offset, arr.data.offset + Mul(arr.len, el.size);
    b := a;
    var x := 0;
    while x < arr.len
      invariant x <= arr.len
      invariant Frame(a, b, lo, hi) && Viewable(b, el, arr)
      invariant Slice(b, el, arr)[..x] == seq(x, i => i)
    {
      var c := SetElem(b, el, arr, x, x);
      BlockInside(x, arr.len, el.size);
      MulMonotone(0, x, el.size);
      FrameTrans(a, b, c, lo, hi, lo, hi, lo + Mul(x, el.size), lo + Mul(x, el.size) + el.size);
      assert Slice(c, el, arr)[..x + 1] == Slice(b, el, arr)[..x] + [x];
      b := c;
      x := x + 1;
    }
  }

  /** An array of ten ints on an expanding allocator, filled with its
      indices, read back through a fresh `Deref` of its header. */
  method SliceScenario<C>(a: Arena<C>, el: Layout<C, int>, hl: Layout<C, Array<int>>) returns (s: seq<int>)
    requires a.Valid() && a.Expanding? && el.Valid() && HeaderLayout(hl)
    ensures s == seq(10, i => i)
  {
    var p := NewArray(a, el, hl, 10);
    var arr := p.value.Deref(p.state, hl);
    PlacedViewable(p.state, el, arr);
    var b := FillIndices(p.state, el, arr);
    FrameLoad(p.state, b, arr.data.offset, arr.data.offset + Mul(10, el.size), p.value.offset, HeaderSize);
    s := Slice(b, el, p.value.Deref(b, hl));
  }

  /** TestSlice: the slice reads back 0 through 9. */
  method TestSlice() returns (s: seq<int>)
    ensures s == [0, 1, 2, 3, 4, 5, 6, 7, 8, 9]
  {
    CellLayoutsValid();
    s := SliceScenario(FreshArena(), IntCell, IntArrayCell);
  }

  // ----- TestObject -----

  /** Keys (and values) 0, 1, ..., n-1: the test's distinct keys. */
  function Upto(n: nat): (s: seq<int>)
    ensures |s| == n && forall i :: 0 <= i < n ==> s[i] == i
  {
    seq(n, i => i)
  }

  lemma FindUpto(n: nat, x: int)
    ensures Find(Upto(n), x) == if 0 <= x < n then x else -1
  {
    var f := Find(Upto(n), x);
    if 0 <= x < n {
      assert Upto(n)[x] == x;
    }
  }

  /** `obj.Set(x, x)` for x from 0 to n-1, on an expanding allocator:
      every insertion succeeds, and afterwards the entries are exactly
      the pairs (x, x) in order. An object that starts with room for all
      of them keeps its arrays. */
  method InsertUpto<C>(a: Arena<C>, L: Layouts<C, int, int>, m: Object<int, int>, n: nat) returns (b: Arena<C>, o: Object<int, int>)
    requires a.Expanding? && Wf(a, L, m) && m.len == 0
    ensures b.Expanding? && Wf(b, L, o) && o.len == n
    ensures LiveKeys(b, L, o) == Upto(n) && LiveVals(b, L, o) == Upto(n)
    ensures n <= m.keys.len ==> o.keys == m.keys && o.vals == m.vals
  {
    b, o := a, m;
    var x := 0;
    while x < n
      invariant x <= n && b.Expanding? && Wf(b, L, o) && o.len == x
      invariant LiveKeys(b, L, o) == Upto(x) && LiveVals(b, L, o) == Upto(x)
      invariant n <= m.keys.len ==> o.keys == m.keys && o.vals == m.vals
    {
      b, o := InsertNext(b, L, o, x);
      x := x + 1;
    }
  }

  /** `Set(x, x)` on an object holding the pairs below x. */
  method InsertNext<C>(a: Arena<C>, L: Layouts<C, int, int>, m: Object<int, int>, x: nat) returns (b: Arena<C>, o: Object<int, int>)
    requires a.Expanding? && Wf(a, L, m) && m.len == x
    requires LiveKeys(a, L, m) == Upto(x) && LiveVals(a, L, m) == Upto(x)
    ensures b.Expanding? && Wf(b, L, o) && o.len == x + 1
    ensures LiveKeys(b, L, o) == Upto(x + 1) && LiveVals(b, L, o) == Upto(x + 1)
    ensures !Full(m) ==> o.keys == m.keys && o.vals == m.vals
  {
    FindUpto(x, x);
    assert Upto(x) + [x] == Upto(x + 1);
    assert Assign(Upto(x), Upto(x), x, x) == (Upto(x + 1), Upto(x + 1));
    var r := Set(a, L, m, x, x);
    assert r.err.None?;
    b, o := r.state, r.value;
    assert |LiveKeys(b, L, o)| == x + 1;
  }

  /** An object holding the pairs (x, x) for x below n answers every
      lookup accordingly and iterates them in order. */
  lemma UptoLookups<C>(b: Arena<C>, L: Layouts<C, int, int>, o: Object<int, int>, n: nat)
    requires Wf(b, L, o) && LiveKeys(b, L, o) == Upto(n) && LiveVals(b, L, o) == Upto(n)
    ensures forall x :: 0 <= x < n ==> Get(b, L, o, x) == (x, true)
    ensures Get(b, L, o, n) == (L.val.zero, false)
    ensures Entries(b, L, o) == seq(n, x => (x, x))
  {
    forall x | 0 <= x < n
      ensures Get(b, L, o, x) == (x, true)
    {
      FindUpto(n, x);
    }
    FindUpto(n, n);
  }

  /** The reads TestObject makes of an object holding the pairs (x, x)
      for x below 10. */
  method ReadBack<C>(b: Arena<C>, L: Layouts<C, int, int>, o: Object<int, int>) returns (found: seq<(int, bool)>, missing: (int, bool), entries: seq<(int, int)>, iter: seq<(int, int)>)
    requires Wf(b, L, o) && L.val.zero == 0 && o.len == 10
    requires LiveKeys(b, L, o) == Upto(10) && LiveVals(b, L, o) == Upto(10)
    ensures found == seq(10, x => (x, true))
    ensures missing == (0, false)
    ensures entries == seq(10, x => (x, x))
    ensures |iter| >= 10 && iter[..10] == entries
    ensures o.keys.len == 10 ==> iter == entries
  {
    UptoLookups(b, L, o, 10);
    found := seq(10, x requires 0 <= x < 10 && Wf(b, L, o) => Get(b, L, o, x));
    missing := Get(b, L, o, 10);
    entries := Entries(b, L, o);
    iter := Objects.Iter(b, L, o);
    IterWalksCapacity(b, L, o);
  }

  /** Keys 0 to 9 inserted into a fresh object of the given capacity. */
  method ObjectScenario<C>(a: Arena<C>, L: Layouts<C, int, int>, capacity: nat) returns (found: seq<(int, bool)>, missing: (int, bool), entries: seq<(int, int)>, iter: seq<(int, int)>)
    requires a.Valid() && a.Expanding? && L.Valid() && L.val.zero == 0
    ensures found == seq(10, x => (x, true))
    ensures missing == (0, false)
    ensures entries == seq(10, x => (x, x))
    ensures |iter| >= 10 && iter[..10] == entries
    ensures capacity == 10 ==> iter == entries
  {
    var r := NewObject(a, L, capacity);
    var m := r.value.Deref(r.state, L.header);
    var b, o := InsertUpto(r.state, L, m, 10);
    found, missing, entries, iter := ReadBack(b, L, o);
  }

  /** TestObject, for any initial capacity: keys 0 to 9 inserted into
      an object made with that capacity (1 makes it grow four times, 10
      not at all) are each found with their value;
      an absent key gives the zero value and `false`; the entries come
      out in insertion order. With capacity 10 the iterators as written
      agree, the object being full. */
  method TestObject(capacity: nat) returns (found: seq<(int, bool)>, missing: (int, bool), entries: seq<(int, int)>, iter: seq<(int, int)>)
    ensures found == seq(10, x => (x, true))
    ensures missing == (0, false)
    ensures entries == seq(10, x => (x, x))
    ensures |iter| >= 10 && iter[..10] == entries
    ensures capacity == 10 ==> iter == entries
  {
    CellLayoutsValid();
    found, missing, entries, iter := ObjectScenario(FreshArena(), IntObjectLayouts(), capacity);
  }

  // ----- TestSimpleObject -----

  const KeyText: seq<byte> := [0x6b, 0x65, 0x79]
  const ValueText: seq<byte> := [0x76, 0x61, 0x6c, 0x75, 0x65]
  const OtherText: seq<byte> := [0x6f, 0x74, 0x68, 0x65, 0x72, 0x5f, 0x6b, 0x65, 0x79]

  /** One `NewString` on an expanding arena, which cannot fail. */
  method MakeString<C>(a: Arena<C>, bl: Layout<C, byte>, hl: Layout<C, String>, text: seq<byte>) returns (b: Arena<C>, s: String)
    requires a.Valid() && a.Expanding? && ByteLayout(bl) && HeaderLayout(hl)
    ensures Grows(a, b) && b.Expanding?
    ensures Placed(b, bl, s) && Slice(b, bl, s) == text && s.len == |text| && a.Cursor() <= s.data.offset
  {
    var r := NewString(a, bl, hl, text);
    s := r.value.Deref(r.state, hl);
    b := r.state;
  }

  /** Three strings allocated one after another. */
  method MakeStrings<C>(a: Arena<C>, bl: Layout<C, byte>, hl: Layout<C, String>) returns (b: Arena<C>, k: String, v: String, other: String)
    requires a.Valid() && a.Expanding? && ByteLayout(bl) && HeaderLayout(hl)
    ensures Grows(a, b) && b.Expanding?
    ensures Placed(b, bl, k) && Slice(b, bl, k) == KeyText && a.Cursor() <= k.data.offset
    ensures Placed(b, bl, v) && Slice(b, bl, v) == ValueText && a.Cursor() <= v.data.offset
    ensures other.len == |OtherText| && other.data.offset != k.data.offset
  {
    var bk, bv: Arena<C>;
    bk, k := MakeString(a, bl, hl, KeyText);
    bv, v := MakeString(bk, bl, hl, ValueText);
    SliceSurvivesGrowth(bk, bv, bl, k);
    b, other := MakeString(bv, bl, hl, OtherText);
    SliceSurvivesGrowth(bv, b, bl, k);
    SliceSurvivesGrowth(bv, b, bl, v);
    GrowsTrans(a, bk, bv);
    GrowsTrans(a, bv, b);
  }

  /** A capacity-1 object mapping the string "key" to the string
      "value", then two lookups. */
  method SimpleObjectScenario<C>(a: Arena<C>, L: Layouts<C, String, String>, bl: Layout<C, byte>, sl: Layout<C, String>) returns (value: seq<byte>, ok: bool, empty: seq<byte>, okOther: bool)
    requires a.Valid() && a.Expanding? && L.Valid() && ByteLayout(bl) && HeaderLayout(sl) && L.val.zero == ZeroArray()
    ensures value == ValueText && ok
    ensures empty == [] && !okOther
  {
    var r := NewObject(a, L, 1);
    var m := r.value.Deref(r.state, L.header);
    var b, k, v, other := MakeStrings(r.state, bl, sl);
    WfSurvivesGrowth(r.state, b, L, m);
    var s := Set(b, L, m, k, v);
    GetAfterSet(b, L, m, k, v);
    var g := Get(s.state, L, s.value, k);
    SliceUntouched(b, s.state, L, m, bl, v);
    value := Owned(s.state, bl, g.0);
    ok := g.1;
    GetAfterSetOther(b, L, m, k, v, other);
    var g2 := Get(s.state, L, s.value, other);
    empty := ReadView(s.state, bl, Cast(s.state, bl, g2.0));
    okOther := g2.1;
  }

  /** TestSimpleObject: looking the key up gives a string whose copy is
      "value"; looking up another string key gives `false` and the zero
      string, whose `Cast` is the empty string. Keys compare as headers,
      as Go's `==` on `String` does. */
  method TestSimpleObject() returns (value: seq<byte>, ok: bool, empty: seq<byte>, okOther: bool)
    ensures value == ValueText && ok
    ensures empty == [] && !okOther
  {
    CellLayoutsValid();
    value, ok, empty, okOther := SimpleObjectScenario(FreshArena(), StringObjectLayouts(), ByteCell, StringCell);
  }
}
