/** The allocator tests of alloc_test.go, at the level of bytes. */
module ByteScenarios {
  import opened Base
  import opened PageAlloc
  import opened ExpandingAlloc
  import opened Arenas
  import opened Ptrs
  import opened Alloc
  import opened LittleEndian

  /** `math.MaxUint64` and `math.MaxUint32`. */
  const MaxU64: U64 := 0xFFFF_FFFF_FFFF_FFFF
  const MaxU32: U64 := 0xFFFF_FFFF

  lemma EncodeMaxU64()
    ensures Encode(MaxU64, 8) == [0xff, 0xff, 0xff, 0xff, 0xff, 0xff, 0xff, 0xff]
  {
  }

  lemma EncodeMaxU32()
    ensures Encode(MaxU32, 8) == [0xff, 0xff, 0xff, 0xff, 0, 0, 0, 0]
  {
  }

  /** The cells a `uint64` written through a pointer leaves behind. */
  lemma SetLeavesEncoding(p: Ptr<U64>, a: Arena<byte>, v: U64)
    requires p.Resolves(a, U64Layout())
    ensures p.Set(a, U64Layout(), v).Cells()[p.offset..p.offset + 8] == Encode(v, 8)
  {
  }

  /** A fresh page hands out a `uint64` at its cursor when that is a
      multiple of 8. */
  lemma NewAtCursor(a: Arena<byte>)
    requires a.Valid() && a.Page? && a.Cursor() % 8 == 0 && a.Cursor() + 8 <= PageSize
    ensures New(a, U64Layout()).err == None
    ensures New(a, U64Layout()).value.offset == a.Cursor()
    ensures New(a, U64Layout()).value.Resolves(New(a, U64Layout()).state, U64Layout())
  {
  }

  /** TestAlloc: two `uint64` values on a fresh page land at offsets 0
      and 8, and the first 16 bytes of the page are their little-endian
      bytes. */
  method TestAlloc() returns (head: seq<byte>)
    ensures head == [0xff, 0xff, 0xff, 0xff, 0xff, 0xff, 0xff, 0xff, 0xff, 0xff, 0xff, 0xff, 0, 0, 0, 0]
  {
    var a: Arena<byte> := Page(0, NewPageAllocator(0));
    var s1 := WriteFirst(a);
    var s2, lo, hi := WriteSecond(s1);
    EncodeMaxU64();
    EncodeMaxU32();
    head := s2.Cells()[0..16];
    assert head == s2.Cells()[0..8] + s2.Cells()[8..16];
  }

  /** The test's first step on a fresh page: a new `uint64` set to the
      largest `uint64`. */
  method WriteFirst(a: Arena<byte>) returns (s1: Arena<byte>)
    requires a.Valid() && a.Page? && a.Cursor() == 0
    ensures s1.Valid() && s1.Page? && s1.Cursor() == 8
    ensures s1.Cells()[0..8] == Encode(MaxU64, 8)
  {
    var l := U64Layout();
    NewAtCursor(a);
    var n1 := New(a, l);
    s1 := n1.value.Set(n1.state, l, MaxU64);
    SetLeavesEncoding(n1.value, n1.state, MaxU64);
  }

  /** The test's second step: a new `uint64` set to the largest
      `uint32`; it lands at 8 and the first value stays. */
  method WriteSecond(s1: Arena<byte>) returns (s2: Arena<byte>, lo: seq<byte>, hi: seq<byte>)
    requires s1.Valid() && s1.Page? && s1.Cursor() == 8
    ensures lo == s1.Cells()[0..8] && hi == Encode(MaxU32, 8)
    ensures |s2.Cells()| >= 16 && s2.Cells()[0..8] == lo && s2.Cells()[8..16] == hi
  {
    var l := U64Layout();
    NewAtCursor(s1);
    var n2 := New(s1, l);
    s2 := n2.value.Set(n2.state, l, MaxU32);
    SetLeavesEncoding(n2.value, n2.state, MaxU32);
    CellsSurviveGrowth(s1, n2.state, 0, 8);
    FrameLoad(n2.state, s2, 8, 16, 0, 8);
    lo := s2.Cells()[0..8];
    hi := s2.Cells()[8..16];
  }

  /** TestPtr: an expanding allocator with room for exactly one `uint64`
      (the test passes 8 to a constructor whose shown form takes no
      argument, so the state is built directly). The second `New` moves
      the buffer, so the address of the first value changes, yet its
      pointer still reads back 100. */
  method TestPtr() returns (p1: Address, p2: Address, v: U64)
    ensures p1 != p2 && p1.index == p2.index
    ensures v == 100
  {
    var l := U64Layout();
    var a: Arena<byte> := Expanding(0, ExpandingAllocator(seq(8, _ => 0), 0, 0, 0));
    var n1 := New(a, l);
    var i := n1.value;
    var s1 := i.Set(n1.state, l, 100);
    p1 := s1.Offset(i.offset);
    var n2 := New(s1, l);
    p2 := n2.state.Offset(i.offset);
    DerefSurvivesGrowth(i, s1, n2.state, l);
    v := i.Deref(n2.state, l);
  }
}
