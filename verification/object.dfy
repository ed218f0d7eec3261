/** object.go: a linear-scan map built from two parallel arrays (keys
    and values) and a count of the slots in use. */
module Objects {
  import opened Base
  import opened Buffers
  import opened Arith
  import opened Arenas
  import opened Ptrs
  import opened Alloc
  import opened Arrays
  import opened Alignment

  /** `Object[K, T]`: the key array, the value array, and how many of
      their leading slots hold entries. */
  datatype Object<K(!new), V(!new)> = Object(keys: Array<K>, vals: Array<V>, len: nat)

  /** `unsafe.Sizeof(Object[K, T]{})` on a 64-bit target: two array
      headers and an int. */
  const ObjectSize: nat := 2 * HeaderSize + 8

  /** `unsafe.Alignof(Object[K, T]{})` on a 64-bit target. */
  const ObjectAlign: nat := 8

  /** What Go knows about the types an object uses: its keys, its
      values, their array headers and the object header. */
  datatype Layouts<!C, !K(!new), !V(!new)> = Layouts(
    key: Layout<C, K>, val: Layout<C, V>,
    keyHeader: Layout<C, Array<K>>, valHeader: Layout<C, Array<V>>,
    header: Layout<C, Object<K, V>>)
  {
    ghost predicate Valid() {
      && key.Valid() && val.Valid()
      && HeaderLayout(keyHeader) && HeaderLayout(valHeader)
      && header.Valid() && header.size == ObjectSize && header.align == ObjectAlign
    }
  }

  // ----- The association list an object stands for -----

  /** The first position of `key` in `ks`, or -1. */
  function Find<K(==)>(ks: seq<K>, key: K): (r: int)
    ensures -1 <= r < |ks|
    ensures r == -1 <==> key !in ks
    ensures r >= 0 ==> ks[r] == key && key !in ks[..r]
  {
    if |ks| == 0 then -1
    else if ks[0] == key then 0
    else
      var r := Find(ks[1..], key);
      assert ks == [ks[0]] + ks[1..];
      if r == -1 then -1
      else
        assert ks[..r + 1] == [ks[0]] + ks[1..][..r];
        r + 1
  }

  /** The value of `key` in the parallel lists `ks`, `vs`, with the
      zero value and `false` when it is absent. */
  function Lookup<K(==), V>(ks: seq<K>, vs: seq<V>, key: K, zero: V): (r: (V, bool))
    requires |ks| == |vs|
  {
    var i := Find(ks, key);
    if i == -1 then (zero, false) else (vs[i], true)
  }

  /** Storing `key: val`: a present key has its value replaced, an
      absent one is appended with its value. */
  function Assign<K(==), V>(ks: seq<K>, vs: seq<V>, key: K, val: V): (r: (seq<K>, seq<V>))
    requires |ks| == |vs|
    ensures |r.0| == |r.1|
  {
    var i := Find(ks, key);
    if i == -1 then (ks + [key], vs + [val]) else (ks, vs[i := val])
  }

  /** No key appears twice. */
  ghost predicate Distinct<K>(ks: seq<K>) {
    forall i, j :: 0 <= i < j < |ks| ==> ks[i] != ks[j]
  }

  /** After storing `key: val`, looking `key` up finds `val`. */
  lemma LookupAssignSame<K, V>(ks: seq<K>, vs: seq<V>, key: K, val: V, zero: V)
    requires |ks| == |vs|
    ensures var r := Assign(ks, vs, key, val); Lookup(r.0, r.1, key, zero) == (val, true)
  {
    var r := Assign(ks, vs, key, val);
    if Find(ks, key) == -1 {
      var i := Find(r.0, key);
      assert r.0[|ks|] == key;
      assert key !in r.0[..|ks|];
      assert r.0[..|ks|] == ks;
    }
  }

  /** Storing one key leaves the lookup of every other key alone. */
  lemma LookupAssignOther<K, V>(ks: seq<K>, vs: seq<V>, key: K, val: V, other: K, zero: V)
    requires |ks| == |vs| && other != key
    ensures var r := Assign(ks, vs, key, val); Lookup(r.0, r.1, other, zero) == Lookup(ks, vs, other, zero)
  {
    var r := Assign(ks, vs, key, val);
    if Find(ks, key) == -1 {
      var i := Find(ks, other);
      var j := Find(r.0, other);
      assert r.0[..|ks|] == ks;
      if i == -1 {
        assert other !in r.0;
      } else {
        assert r.0[..i] == ks[..i];
      }
    }
  }

  /** Storing keeps the keys free of duplicates. */
  lemma AssignKeepsDistinct<K, V>(ks: seq<K>, vs: seq<V>, key: K, val: V)
    requires |ks| == |vs| && Distinct(ks)
    ensures Distinct(Assign(ks, vs, key, val).0)
  {
  }

  // ----- The object in memory -----

  /** An element `k` lies in the cells of `arr`. */
  predicate InArray<C, T(!new)>(k: nat, el: Layout<C, T>, arr: Array<T>) {
    arr.data.offset <= k < arr.data.offset + Mul(arr.len, el.size)
  }

  /** What every operation keeps: both arrays allocated in `a`, equal
      capacities, the count within them, and the keys stored before the
      values (so writes to one never touch the other). */
  ghost predicate Wf<C, K(!new), V(!new)>(a: Arena<C>, L: Layouts<C, K, V>, m: Object<K, V>) {
    && L.Valid()
    && Placed(a, L.key, m.keys) && Placed(a, L.val, m.vals)
    && m.keys.len == m.vals.len && m.len <= m.keys.len
    && m.keys.data.offset + Mul(m.keys.len, L.key.size) <= m.vals.data.offset
  }

  /** The keys in use: the first `len` slots. */
  function LiveKeys<C, K(!new), V(!new)>(a: Arena<C>, L: Layouts<C, K, V>, m: Object<K, V>): (ks: seq<K>)
    requires Wf(a, L, m)
    ensures |ks| == m.len
  {
    PlacedViewable(a, L.key, m.keys);
    Slice(a, L.key, m.keys)[..m.len]
  }

  /** The values in use, parallel to `LiveKeys`. */
  function LiveVals<C, K(!new), V(!new)>(a: Arena<C>, L: Layouts<C, K, V>, m: Object<K, V>): (vs: seq<V>)
    requires Wf(a, L, m)
    ensures |vs| == m.len
  {
    PlacedViewable(a, L.val, m.vals);
    Slice(a, L.val, m.vals)[..m.len]
  }

  /** `index`, as its loop runs: from slot `x` on, stop at the end of the
      slice or at `len`, and report the first slot holding `key`. */
  function IndexFrom<K(==)>(ks: seq<K>, len: nat, key: K, x: nat): (r: int)
    requires x <= |ks|
    ensures r == -1 || (x <= r < len && r < |ks| && ks[r] == key)
    decreases |ks| - x
  {
    if x == |ks| then -1
    else if x >= len then -1
    else if ks[x] == key then x
    else IndexFrom(ks, len, key, x + 1)
  }

  /** `index` scanned from the first slot. */
  function Index<K(==)>(ks: seq<K>, len: nat, key: K): (r: int)
    ensures r == -1 || (0 <= r < len && r < |ks| && ks[r] == key)
  {
    IndexFrom(ks, len, key, 0)
  }

  /** The scan finds the first occurrence among the first `len` slots and
      never looks beyond them. */
  lemma {:induction false} IndexFromIsFind<K>(ks: seq<K>, len: nat, key: K, x: nat)
    requires x <= len <= |ks| && key !in ks[..x]
    ensures IndexFrom(ks, len, key, x) == Find(ks[..len], key)
    decreases len - x
  {
    var f := Find(ks[..len], key);
    if x == len {
      assert ks[..len] == ks[..x];
    } else if ks[x] == key {
      assert ks[..len][x] == key;
    } else {
      assert ks[..x + 1] == ks[..x] + [ks[x]];
      IndexFromIsFind(ks, len, key, x + 1);
    }
  }

  /** `index` on an object agrees with `Find` on its live keys. */
  lemma IndexIsFind<C, K(!new), V(!new)>(a: Arena<C>, L: Layouts<C, K, V>, m: Object<K, V>, key: K)
    requires Wf(a, L, m)
    ensures Viewable(a, L.key, m.keys)
    ensures Index(Slice(a, L.key, m.keys), m.len, key) == Find(LiveKeys(a, L, m), key)
  {
    PlacedViewable(a, L.key, m.keys);
    IndexFromIsFind(Slice(a, L.key, m.keys), m.len, key, 0);
  }

  /** `full`: the count has reached the key array's capacity. */
  predicate Full<K(!new), V(!new)>(m: Object<K, V>): (r: bool)
    ensures r <==> m.len >= m.keys.len
  {
    m.len >= Length(m.keys)
  }

  /** An object is full exactly when every slot holds an entry. */
  lemma FullIffNoFreeSlot<C, K(!new), V(!new)>(a: Arena<C>, L: Layouts<C, K, V>, m: Object<K, V>)
    requires Wf(a, L, m)
    ensures Full(m) <==> |LiveKeys(a, L, m)| == m.keys.len
  {
  }

  /** The capacity `grow` asks for: double the count, or 10 for an empty
      object. */
  function NewCapacity(len: nat): (n: nat)
    ensures n > len
    ensures len > 0 ==> n == 2 * len
    ensures len == 0 ==> n == 10
  {
    if len * 2 == 0 then 10 else len * 2
  }

  /** Whether `grow` finds room: on a page, the expanded key array and
      then the expanded value array must end inside it. */
  ghost predicate GrowFits<C, K(!new), V(!new)>(a: Arena<C>, L: Layouts<C, K, V>, m: Object<K, V>)
    requires L.Valid()
  {
    var n := NewCapacity(m.len);
    a.Expanding? || ArrayEnd(ArrayEnd(a.Cursor(), L.key, n), L.val, n) <= PageAlloc.PageSize
  }

  /** When the object is full, the new capacity exceeds the old one, so
      `Expand` does not panic. */
  lemma FullGrowthExpands<C, K(!new), V(!new)>(a: Arena<C>, L: Layouts<C, K, V>, m: Object<K, V>)
    requires Wf(a, L, m) && Full(m)
    ensures NewCapacity(m.len) > m.keys.len && NewCapacity(m.len) > m.vals.len
  {
  }

  /** `b` is `a` after allocations and writes to the object's arrays:
      every cell below the old cursor outside both arrays is as it was. */
  ghost predicate Untouched<C, K(!new), V(!new)>(a: Arena<C>, b: Arena<C>, L: Layouts<C, K, V>, m: Object<K, V>) {
    && a.Valid() && b.Valid()
    && a.id == b.id && a.Page? == b.Page?
    && a.Cursor() <= b.Cursor()
    && forall k :: 0 <= k < a.Cursor() && !InArray(k, L.key, m.keys) && !InArray(k, L.val, m.vals) ==>
         k < |b.Cells()| && k < |a.Cells()| && b.Cells()[k] == a.Cells()[k]
  }

  lemma GrowsUntouched<C, K(!new), V(!new)>(a: Arena<C>, b: Arena<C>, L: Layouts<C, K, V>, m: Object<K, V>)
    requires Grows(a, b)
    ensures Untouched(a, b, L, m)
  {
    forall k | 0 <= k < a.Cursor()
      ensures k < |b.Cells()| && k < |a.Cells()| && b.Cells()[k] == a.Cells()[k]
    {
      CellsSurviveGrowth(a, b, k, 1);
      assert b.Cells()[k..k + 1][0] == a.Cells()[k..k + 1][0];
    }
  }

  /** A write above the old cursor or inside the object's arrays keeps
      the rest untouched. */
  lemma UntouchedThenFrame<C, K(!new), V(!new)>(a: Arena<C>, b: Arena<C>, c: Arena<C>, L: Layouts<C, K, V>, m: Object<K, V>, lo: nat, hi: nat)
    requires Untouched(a, b, L, m) && Frame(b, c, lo, hi)
    requires a.Cursor() <= lo || (m.keys.data.offset <= lo && hi <= m.keys.data.offset + Mul(m.keys.len, L.key.size))
      || (m.vals.data.offset <= lo && hi <= m.vals.data.offset + Mul(m.vals.len, L.val.size))
    ensures Untouched(a, c, L, m)
  {
  }

  /** Allocations elsewhere keep an object well formed and its entries
      as they were. */
  lemma WfSurvivesGrowth<C, K(!new), V(!new)>(a: Arena<C>, b: Arena<C>, L: Layouts<C, K, V>, m: Object<K, V>)
    requires Grows(a, b) && Wf(a, L, m)
    ensures Wf(b, L, m)
    ensures LiveKeys(b, L, m) == LiveKeys(a, L, m) && LiveVals(b, L, m) == LiveVals(a, L, m)
  {
    SliceSurvivesGrowth(a, b, L.key, m.keys);
    SliceSurvivesGrowth(a, b, L.val, m.vals);
  }

  /** Changes confined to the arrays of `n`, which are either those of
      `m` or lie above the old cursor, keep `m`'s surroundings
      untouched. */
  lemma UntouchedChain<C, K(!new), V(!new)>(a: Arena<C>, b: Arena<C>, c: Arena<C>, L: Layouts<C, K, V>, m: Object<K, V>, n: Object<K, V>)
    requires Untouched(a, b, L, m) && Untouched(b, c, L, n)
    requires n == m || (a.Cursor() <= n.keys.data.offset && a.Cursor() <= n.vals.data.offset)
    ensures Untouched(a, c, L, m)
  {
  }

  /** An array allocated after the object's arrays reads the same after
      changes that leave the object's surroundings untouched. */
  lemma SliceUntouched<C, K(!new), V(!new), T(!new)>(a: Arena<C>, b: Arena<C>, L: Layouts<C, K, V>, m: Object<K, V>, el: Layout<C, T>, arr: Array<T>)
    requires Untouched(a, b, L, m) && Placed(a, el, arr)
    requires m.keys.data.offset + Mul(m.keys.len, L.key.size) <= arr.data.offset
    requires m.vals.data.offset + Mul(m.vals.len, L.val.size) <= arr.data.offset
    ensures Placed(b, el, arr) && Viewable(a, el, arr) && Viewable(b, el, arr)
    ensures Slice(b, el, arr) == Slice(a, el, arr)
  {
    PlacedViewable(a, el, arr);
    PlacedViewable(b, el, arr);
    forall j | 0 <= j < arr.len
      ensures Elem(b, el, arr, j) == Elem(a, el, arr, j)
    {
      var o := arr.data.offset + Mul(j, el.size);
      BlockInside(j, arr.len, el.size);
      MulMonotone(0, j, el.size);
      assert b.Cells()[o..o + el.size] == a.Cells()[o..o + el.size];
    }
  }

  // ----- Operations -----

  /** `Get`: the value stored under `key` and `true`, or the zero value
      and `false`. */
  function Get<C, K(==,!new), V(!new)>(a: Arena<C>, L: Layouts<C, K, V>, m: Object<K, V>, key: K): (r: (V, bool))
    requires Wf(a, L, m)
    ensures r == Lookup(LiveKeys(a, L, m), LiveVals(a, L, m), key, L.val.zero)
  {
    IndexIsFind(a, L, m, key);
    PlacedViewable(a, L.val, m.vals);
    var i := Index(Slice(a, L.key, m.keys), m.len, key);
    if i == -1 then (L.val.zero, false) else (Slice(a, L.val, m.vals)[i], true)
  }

  /** `grow` as its doc comment promises: both arrays expanded to
      `NewCapacity(len)` with the entries copied, the count unchanged,
      and an allocation error returned with the object as it was. */
  function Grow<C, K(!new), V(!new)>(a: Arena<C>, L: Layouts<C, K, V>, m: Object<K, V>): (r: Outcome<Arena<C>, Object<K, V>>)
    requires Wf(a, L, m) && NewCapacity(m.len) > m.keys.len
    ensures Grows(a, r.state) && Wf(r.state, L, r.value)
    ensures r.err.Some? ==> a.Page? && r.err == Some(ErrMemoryExhausted) && r.value == m
    ensures a.Expanding? ==> r.err.None?
    ensures r.err.None? <==> GrowFits(a, L, m)
    ensures r.err.None? ==> r.value.len == m.len && r.value.keys.len == NewCapacity(m.len)
    ensures r.err.None? ==> a.Cursor() <= r.value.keys.data.offset && a.Cursor() <= r.value.vals.data.offset
    ensures LiveKeys(r.state, L, r.value) == LiveKeys(a, L, m)
    ensures LiveVals(r.state, L, r.value) == LiveVals(a, L, m)
  {
    var n := NewCapacity(m.len);
    var k := TryExpand(a, L.key, L.keyHeader, m.keys, n);
    SliceSurvivesGrowth(a, k.state, L.val, m.vals);
    if k.err.Some? then Outcome(k.state, m, k.err)
    else
      var v := TryExpand(k.state, L.val, L.valHeader, m.vals, n);
      SliceSurvivesGrowth(k.state, v.state, L.key, m.keys);
      GrowsTrans(a, k.state, v.state);
      if v.err.Some? then WfSurvivesGrowth(a, v.state, L, m); Outcome(v.state, m, v.err)
      else
        GrownWf(a, k.state, v.state, L, m, k.value, v.value, n);
        Outcome(v.state, Object(k.value, v.value, m.len), None)
  }

  /** The success case of `Grow`: the two expanded arrays, allocated one
      after the other, form a well-formed object with the same entries. */
  lemma GrownWf<C, K(!new), V(!new)>(a: Arena<C>, b: Arena<C>, c: Arena<C>, L: Layouts<C, K, V>, m: Object<K, V>, keys: Array<K>, vals: Array<V>, n: nat)
    requires Wf(a, L, m) && Grows(a, b) && Grows(b, c)
    requires Expanded(a, b, L.key, m.keys, keys, n) && Expanded(b, c, L.val, m.vals, vals, n)
    requires Slice(b, L.val, m.vals) == Slice(a, L.val, m.vals)
    ensures Wf(c, L, Object(keys, vals, m.len))
    ensures LiveKeys(c, L, Object(keys, vals, m.len)) == LiveKeys(a, L, m)
    ensures LiveVals(c, L, Object(keys, vals, m.len)) == LiveVals(a, L, m)
  {
    SliceSurvivesGrowth(b, c, L.key, keys);
    var g := Object(keys, vals, m.len);
    assert Wf(c, L, g);
    assert Slice(c, L.key, keys)[..m.len] == Slice(c, L.key, keys)[..m.keys.len][..m.len];
    assert Slice(c, L.val, vals)[..m.len] == Slice(c, L.val, vals)[..m.vals.len][..m.len];
  }

  /** `grow` as written: `Expand` never reports an error, and the count
      is overwritten with the new capacity (object.go line 79). */
  function GrowAsWritten<C, K(!new), V(!new)>(a: Arena<C>, L: Layouts<C, K, V>, m: Object<K, V>): (r: Outcome<Arena<C>, Object<K, V>>)
    requires Wf(a, L, m) && NewCapacity(m.len) > m.keys.len
    ensures Grows(a, r.state)
    ensures r.err == None
    ensures r.value.len == NewCapacity(m.len)
    ensures r.value.keys == ZeroArray() || r.value.keys.len == NewCapacity(m.len)
  {
    var n := NewCapacity(m.len);
    var k := Expand(a, L.key, L.keyHeader, m.keys, n);
    if k.err.Some? then Outcome(k.state, m, k.err)
    else
      SliceSurvivesGrowth(a, k.state, L.val, m.vals);
      var v := Expand(k.state, L.val, L.valHeader, m.vals, n);
      GrowsTrans(a, k.state, v.state);
      if v.err.Some? then Outcome(v.state, m, v.err)
      else Outcome(v.state, Object(k.value, v.value, n), None)
  }

  /** The defect of `grow` as written: after it the count differs from
      the number of entries, and it equals the capacity, so the write at
      slot `len` in `Set` (object.go line 105) is out of range. With the
      page allocator out of room the key array is even the empty zero
      header. */
  lemma GrowAsWrittenBreaksSet<C, K(!new), V(!new)>(a: Arena<C>, L: Layouts<C, K, V>, m: Object<K, V>)
    requires Wf(a, L, m) && Full(m)
    ensures NewCapacity(m.len) > m.keys.len
    ensures GrowAsWritten(a, L, m).value.len != m.len
    ensures GrowAsWritten(a, L, m).value.len >= GrowAsWritten(a, L, m).value.keys.len
    ensures Grow(a, L, m).err.None? ==> Grow(a, L, m).value.len < Grow(a, L, m).value.keys.len
  {
  }

  /** `m.keys.Slice()[i] = key`: key slot `i` is replaced; the value
      array and everything outside the object stay as they were. */
  function WriteKey<C, K(!new), V(!new)>(a: Arena<C>, L: Layouts<C, K, V>, m: Object<K, V>, i: nat, key: K): (r: Arena<C>)
    requires Wf(a, L, m) && i < m.keys.len
    ensures Wf(r, L, m) && Untouched(a, r, L, m)
    ensures Viewable(a, L.key, m.keys) && Viewable(a, L.val, m.vals)
    ensures Viewable(r, L.key, m.keys) && Viewable(r, L.val, m.vals)
    ensures Slice(r, L.key, m.keys) == Slice(a, L.key, m.keys)[i := key]
    ensures Slice(r, L.val, m.vals) == Slice(a, L.val, m.vals)
  {
    PlacedViewable(a, L.key, m.keys);
    PlacedViewable(a, L.val, m.vals);
    var r := SetElem(a, L.key, m.keys, i, key);
    var lo := m.keys.data.offset + Mul(i, L.key.size);
    BlockInside(i, m.keys.len, L.key.size);
    MulMonotone(0, i, L.key.size);
    SliceOutsideFrame(a, r, L.val, m.vals, lo, lo + L.key.size);
    GrowsRefl(a);
    GrowsUntouched(a, a, L, m);
    UntouchedThenFrame(a, a, r, L, m, lo, lo + L.key.size);
    r
  }

  /** `m.vals.Slice()[i] = val`: value slot `i` is replaced; the key
      array and everything outside the object stay as they were. */
  function WriteVal<C, K(!new), V(!new)>(a: Arena<C>, L: Layouts<C, K, V>, m: Object<K, V>, i: nat, val: V): (r: Arena<C>)
    requires Wf(a, L, m) && i < m.vals.len
    ensures Wf(r, L, m) && Untouched(a, r, L, m)
    ensures Viewable(a, L.key, m.keys) && Viewable(a, L.val, m.vals)
    ensures Viewable(r, L.key, m.keys) && Viewable(r, L.val, m.vals)
    ensures Slice(r, L.val, m.vals) == Slice(a, L.val, m.vals)[i := val]
    ensures Slice(r, L.key, m.keys) == Slice(a, L.key, m.keys)
  {
    PlacedViewable(a, L.key, m.keys);
    PlacedViewable(a, L.val, m.vals);
    var r := SetElem(a, L.val, m.vals, i, val);
    var lo := m.vals.data.offset + Mul(i, L.val.size);
    BlockInside(i, m.vals.len, L.val.size);
    MulMonotone(0, i, L.val.size);
    SliceOutsideFrame(a, r, L.key, m.keys, lo, lo + L.val.size);
    GrowsRefl(a);
    GrowsUntouched(a, a, L, m);
    UntouchedThenFrame(a, a, r, L, m, lo, lo + L.val.size);
    r
  }

  /** Line 93 of `Set`: the value at an occupied slot is replaced and
      nothing else about the object changes. */
  function Overwrite<C, K(!new), V(!new)>(a: Arena<C>, L: Layouts<C, K, V>, m: Object<K, V>, i: nat, val: V): (r: Arena<C>)
    requires Wf(a, L, m) && i < m.len
    ensures Wf(r, L, m) && Untouched(a, r, L, m)
    ensures LiveKeys(r, L, m) == LiveKeys(a, L, m)
    ensures LiveVals(r, L, m) == LiveVals(a, L, m)[i := val]
  {
    var r := WriteVal(a, L, m, i, val);
    assert Slice(a, L.val, m.vals)[i := val][..m.len] == Slice(a, L.val, m.vals)[..m.len][i := val];
    r
  }

  /** Lines 105-107 of `Set`: with a free slot, the key and value go to
      slot `len` and the count grows by one. */
  function Append<C, K(!new), V(!new)>(a: Arena<C>, L: Layouts<C, K, V>, m: Object<K, V>, key: K, val: V): (r: Outcome<Arena<C>, Object<K, V>>)
    requires Wf(a, L, m) && m.len < m.keys.len
    ensures r.err == None
    ensures Wf(r.state, L, r.value) && Untouched(a, r.state, L, m)
    ensures r.value == m.(len := m.len + 1)
    ensures LiveKeys(r.state, L, r.value) == LiveKeys(a, L, m) + [key]
    ensures LiveVals(r.state, L, r.value) == LiveVals(a, L, m) + [val]
  {
    var b1 := WriteKey(a, L, m, m.len, key);
    var b2 := WriteVal(b1, L, m, m.len, val);
    UntouchedChain(a, b1, b2, L, m, m);
    UpdateExtendsPrefix(Slice(a, L.key, m.keys), m.len, key);
    UpdateExtendsPrefix(Slice(a, L.val, m.vals), m.len, val);
    Outcome(b2, m.(len := m.len + 1), None)
  }

  /** Writing slot `i` and then taking `i + 1` slots appends to the first
      `i`. */
  lemma UpdateExtendsPrefix<T>(s: seq<T>, i: nat, x: T)
    requires i < |s|
    ensures s[i := x][..i + 1] == s[..i] + [x]
  {
    assert s[i := x][..i + 1] == s[i := x][..i] + [x];
    assert s[i := x][..i] == s[..i];
  }

  /** The absent-key half of `Set` (object.go lines 97-108): grow a full
      object, then append. An allocation error while growing leaves the
      entries as they were. */
  function Insert<C, K(!new), V(!new)>(a: Arena<C>, L: Layouts<C, K, V>, m: Object<K, V>, key: K, val: V): (r: Outcome<Arena<C>, Object<K, V>>)
    requires Wf(a, L, m)
    ensures Wf(r.state, L, r.value) && Untouched(a, r.state, L, m)
    ensures r.err.Some? ==> a.Page? && r.err == Some(ErrMemoryExhausted) && r.value == m && Full(m)
    ensures r.err.Some? <==> Full(m) && !GrowFits(a, L, m)
    ensures r.err.Some? ==> LiveKeys(r.state, L, r.value) == LiveKeys(a, L, m) && LiveVals(r.state, L, r.value) == LiveVals(a, L, m)
    ensures a.Expanding? ==> r.err.None?
    ensures r.err.None? ==> r.value.len == m.len + 1
    ensures !Full(m) ==> r.value == m.(len := m.len + 1)
    ensures r.err.None? ==> LiveKeys(r.state, L, r.value) == LiveKeys(a, L, m) + [key]
    ensures r.err.None? ==> LiveVals(r.state, L, r.value) == LiveVals(a, L, m) + [val]
  {
    var g := if Full(m) then Grow(a, L, m) else Outcome(a, m, None);
    GrowsRefl(a);
    GrowsUntouched(a, g.state, L, m);
    if g.err.Some? then g
    else
      var n := g.value;
      var r := Append(g.state, L, n, key, val);
      UntouchedChain(a, g.state, r.state, L, m, n);
      r
  }

  /** `Set` with `grow` as its doc comment promises: a present key has its
      value replaced in place; an absent key is appended, after growing a
      full object. The only error is an allocation failure while growing,
      which leaves the entries as they were. */
  function Set<C, K(==,!new), V(!new)>(a: Arena<C>, L: Layouts<C, K, V>, m: Object<K, V>, key: K, val: V): (r: Outcome<Arena<C>, Object<K, V>>)
    requires Wf(a, L, m)
    ensures Wf(r.state, L, r.value) && Untouched(a, r.state, L, m)
    ensures r.err.Some? ==> a.Page? && r.err == Some(ErrMemoryExhausted) && r.value == m
    ensures r.err.Some? ==> Full(m) && key !in LiveKeys(a, L, m)
    ensures r.err.Some? <==> key !in LiveKeys(a, L, m) && Full(m) && !GrowFits(a, L, m)
    ensures r.err.Some? ==> LiveKeys(r.state, L, r.value) == LiveKeys(a, L, m) && LiveVals(r.state, L, r.value) == LiveVals(a, L, m)
    ensures a.Expanding? ==> r.err.None?
    ensures key in LiveKeys(a, L, m) ==> r.value == m
    ensures !Full(m) ==> r.err.None? && r.value.keys == m.keys && r.value.vals == m.vals
    ensures r.err.None? ==>
      (LiveKeys(r.state, L, r.value), LiveVals(r.state, L, r.value)) == Assign(LiveKeys(a, L, m), LiveVals(a, L, m), key, val)
  {
    IndexIsFind(a, L, m, key);
    var i := Index(Slice(a, L.key, m.keys), m.len, key);
    if i != -1 then Outcome(Overwrite(a, L, m, i, val), m, None)
    else Insert(a, L, m, key, val)
  }

  /** Looking up the key just stored finds the value just stored. */
  lemma GetAfterSet<C, K(!new), V(!new)>(a: Arena<C>, L: Layouts<C, K, V>, m: Object<K, V>, key: K, val: V)
    requires Wf(a, L, m) && Set(a, L, m, key, val).err.None?
    ensures var r := Set(a, L, m, key, val); Get(r.state, L, r.value, key) == (val, true)
  {
    LookupAssignSame(LiveKeys(a, L, m), LiveVals(a, L, m), key, val, L.val.zero);
  }

  /** Storing one key leaves every other key's lookup unchanged. */
  lemma GetAfterSetOther<C, K(!new), V(!new)>(a: Arena<C>, L: Layouts<C, K, V>, m: Object<K, V>, key: K, val: V, other: K)
    requires Wf(a, L, m) && other != key
    ensures var r := Set(a, L, m, key, val); Get(r.state, L, r.value, other) == Get(a, L, m, other)
  {
    LookupAssignOther(LiveKeys(a, L, m), LiveVals(a, L, m), key, val, other, L.val.zero);
  }

  /** `Set` never stores a key twice. */
  lemma SetKeepsKeysDistinct<C, K(!new), V(!new)>(a: Arena<C>, L: Layouts<C, K, V>, m: Object<K, V>, key: K, val: V)
    requires Wf(a, L, m) && Distinct(LiveKeys(a, L, m))
    ensures var r := Set(a, L, m, key, val); Distinct(LiveKeys(r.state, L, r.value))
  {
    AssignKeepsDistinct(LiveKeys(a, L, m), LiveVals(a, L, m), key, val);
  }

  /** The post-state of a successful `NewObject`: `p` points at a header
      in `s` for an empty object of capacity `size`, placed at or above
      the old cursor and before its arrays. */
  ghost predicate Built<C, K(!new), V(!new)>(a: Arena<C>, s: Arena<C>, L: Layouts<C, K, V>, p: Ptr<Object<K, V>>, size: nat) {
    && p.Into(s) && p.Resolves(s, L.header)
    && var m := p.Deref(s, L.header);
       && m.len == 0 && m.keys.len == size && m.vals.len == size
       && Wf(s, L, m)
       && a.Cursor() <= p.offset && p.offset + ObjectSize <= m.keys.data.offset
  }

  /** Whether `NewObject` finds room: on a page, the object header, then
      the key array, then the value array must end inside it. */
  ghost predicate ObjectFits<C, K(!new), V(!new)>(a: Arena<C>, L: Layouts<C, K, V>, size: nat)
    requires L.Valid()
  {
    var h := Align(a.Cursor(), ObjectAlign) + ObjectSize;
    a.Expanding? || ArrayEnd(ArrayEnd(h, L.key, size), L.val, size) <= PageAlloc.PageSize
  }

  /** `ObjectFits` unfolded into its three steps: each ends no earlier
      than the one before, so the last one fitting is the whole test. */
  lemma ObjectFitsSteps<C, K(!new), V(!new)>(a: Arena<C>, L: Layouts<C, K, V>, size: nat)
    requires L.Valid()
    ensures var h := Align(a.Cursor(), ObjectAlign) + ObjectSize;
      var k := ArrayEnd(h, L.key, size);
      && a.Cursor() <= h <= k <= ArrayEnd(k, L.val, size)
      && (ObjectFits(a, L, size) <==> a.Expanding? || ArrayEnd(k, L.val, size) <= PageAlloc.PageSize)
  {
  }

  /** `NewObject`: the header first, then the key array (whose header is
      copied into the object), then the value array, then the count set
      to 0. Any allocation error comes back with the null pointer. */
  function NewObject<C, K(!new), V(!new)>(a: Arena<C>, L: Layouts<C, K, V>, size: nat): (r: Outcome<Arena<C>, Ptr<Object<K, V>>>)
    requires a.Valid() && L.Valid()
    ensures Grows(a, r.state)
    ensures r.err.Some? ==> a.Page? && r.err == Some(ErrMemoryExhausted) && r.value.IsNull()
    ensures a.Expanding? ==> r.err.None?
    ensures r.err.None? ==> Built(a, r.state, L, r.value, size)
    ensures r.err.None? <==> ObjectFits(a, L, size)
  {
    ObjectFitsSteps(a, L, size);
    var o := New(a, L.header);
    if o.err.Some? then Outcome(o.state, NullPtr(), o.err)
    else
      NewObjectArrays(a, o.state, L, o.value, size)
  }

  /** Lines 22-38 of `NewObject`, once its header is reserved at `p`
      just below the cursor of `o`: the key array, then the value array,
      each attached to the header, then the count set to 0. */
  function NewObjectArrays<C, K(!new), V(!new)>(a: Arena<C>, o: Arena<C>, L: Layouts<C, K, V>, p: Ptr<Object<K, V>>, size: nat): (r: Outcome<Arena<C>, Ptr<Object<K, V>>>)
    requires L.Valid() && Grows(a, o) && p.Into(o)
    requires a.Cursor() <= p.offset && p.offset + ObjectSize == o.Cursor()
    ensures Grows(a, r.state)
    ensures r.err.Some? ==> o.Page? && r.err == Some(ErrMemoryExhausted) && r.value.IsNull()
    ensures o.Expanding? ==> r.err.None?
    ensures r.err.None? ==> r.value == p && Built(a, r.state, L, p, size)
    ensures o.Page? ==> (r.err.None? <==> ArrayEnd(ArrayEnd(o.Cursor(), L.key, size), L.val, size) <= PageAlloc.PageSize)
  {
    var k := NewArray(o, L.key, L.keyHeader, size);
    GrowsTrans(a, o, k.state);
    if k.err.Some? then Outcome(k.state, NullPtr(), k.err)
    else
      var kh := k.value.Deref(k.state, L.keyHeader);
      var s1 := AttachKeys(o, k.state, L, p, kh);
      GrowsThenFrame(a, k.state, s1, p.offset, p.offset + ObjectSize);
      var v := NewArray(s1, L.val, L.valHeader, size);
      GrowsTrans(a, s1, v.state);
      if v.err.Some? then Outcome(v.state, NullPtr(), v.err)
      else
        var vh := v.value.Deref(v.state, L.valHeader);
        var s3 := AttachVals(a, s1, v.state, L, p, kh, vh);
        Outcome(s3, p, None)
  }

  /** Line 26 of `NewObject`: the key array's header is copied into the
      object's header, which lies below the array. */
  function AttachKeys<C, K(!new), V(!new)>(o: Arena<C>, k: Arena<C>, L: Layouts<C, K, V>, p: Ptr<Object<K, V>>, kh: Array<K>): (s1: Arena<C>)
    requires L.Valid() && Grows(o, k) && p.Into(o) && p.offset + ObjectSize == o.Cursor()
    requires Placed(k, L.key, kh) && o.Cursor() <= kh.data.offset
    ensures Frame(k, s1, p.offset, p.offset + ObjectSize)
    ensures p.Resolves(s1, L.header) && p.Deref(s1, L.header).keys == kh
    ensures Placed(s1, L.key, kh) && Slice(s1, L.key, kh) == Slice(k, L.key, kh)
  {
    DerefSurvivesGrowth(p, o, k, L.header);
    var s1 := p.Set(k, L.header, p.Deref(k, L.header).(keys := kh));
    PlacedViewable(k, L.key, kh);
    SliceOutsideFrame(k, s1, L.key, kh, p.offset, p.offset + ObjectSize);
    s1
  }

  /** Lines 32-36 of `NewObject`: the value array's header and the count 0
      are written into the object's header. */
  function AttachVals<C, K(!new), V(!new)>(a: Arena<C>, s1: Arena<C>, v: Arena<C>, L: Layouts<C, K, V>, p: Ptr<Object<K, V>>, kh: Array<K>, vh: Array<V>): (s3: Arena<C>)
    requires L.Valid() && Grows(a, s1) && Grows(s1, v) && Grows(a, v)
    requires p.Resolves(s1, L.header) && p.Deref(s1, L.header).keys == kh
    requires a.Cursor() <= p.offset && p.offset + ObjectSize <= kh.data.offset
    requires Placed(s1, L.key, kh) && Placed(v, L.val, vh) && s1.Cursor() <= vh.data.offset
    requires kh.len == vh.len
    ensures Grows(a, s3)
    ensures Built(a, s3, L, p, kh.len)
  {
    var hi := p.offset + ObjectSize;
    DerefSurvivesGrowth(p, s1, v, L.header);
    SliceSurvivesGrowth(s1, v, L.key, kh);
    var s2 := p.Set(v, L.header, p.Deref(v, L.header).(vals := vh));
    var s3 := p.Set(s2, L.header, p.Deref(s2, L.header).(len := 0));
    FrameTrans(v, s2, s3, p.offset, hi, p.offset, hi, p.offset, hi);
    GrowsThenFrame(a, v, s3, p.offset, hi);
    assert p.Deref(s3, L.header) == Object(kh, vh, 0);
    s3
  }

  /** `Iter` as written: every slot of the key array paired with the value
      slot of the same index, in use or not. */
  function Iter<C, K(!new), V(!new)>(a: Arena<C>, L: Layouts<C, K, V>, m: Object<K, V>): (s: seq<(K, V)>)
    requires Wf(a, L, m)
    ensures |s| == m.keys.len
    ensures forall i :: 0 <= i < m.len ==> s[i] == (LiveKeys(a, L, m)[i], LiveVals(a, L, m)[i])
    ensures Viewable(a, L.key, m.keys) && Viewable(a, L.val, m.vals)
    ensures forall i :: 0 <= i < |s| ==> s[i] == (Elem(a, L.key, m.keys, i), Elem(a, L.val, m.vals, i))
  {
    PlacedViewable(a, L.key, m.keys);
    PlacedViewable(a, L.val, m.vals);
    var ks := Slice(a, L.key, m.keys);
    var vs := Slice(a, L.val, m.vals);
    seq(|ks|, i requires 0 <= i < |ks| => (ks[i], vs[i]))
  }

  /** `Keys` as written: every slot of the key array. */
  function Keys<C, K(!new), V(!new)>(a: Arena<C>, L: Layouts<C, K, V>, m: Object<K, V>): (s: seq<K>)
    requires Wf(a, L, m)
    ensures |s| == m.keys.len && s[..m.len] == LiveKeys(a, L, m)
    ensures Viewable(a, L.key, m.keys) && forall i :: 0 <= i < |s| ==> s[i] == Elem(a, L.key, m.keys, i)
  {
    PlacedViewable(a, L.key, m.keys);
    Slice(a, L.key, m.keys)
  }

  /** `Vals` as written: every slot of the value array. */
  function Vals<C, K(!new), V(!new)>(a: Arena<C>, L: Layouts<C, K, V>, m: Object<K, V>): (s: seq<V>)
    requires Wf(a, L, m)
    ensures |s| == m.vals.len && s[..m.len] == LiveVals(a, L, m)
    ensures Viewable(a, L.val, m.vals) && forall i :: 0 <= i < |s| ==> s[i] == Elem(a, L.val, m.vals, i)
  {
    PlacedViewable(a, L.val, m.vals);
    Slice(a, L.val, m.vals)
  }

  /** The iteration the type stands for: the entries in use, in the order
      they were inserted. */
  function Entries<C, K(!new), V(!new)>(a: Arena<C>, L: Layouts<C, K, V>, m: Object<K, V>): (s: seq<(K, V)>)
    requires Wf(a, L, m)
    ensures |s| == m.len
    ensures forall i :: 0 <= i < |s| ==> s[i].0 == LiveKeys(a, L, m)[i] && s[i].1 == LiveVals(a, L, m)[i]
  {
    var ks := LiveKeys(a, L, m);
    var vs := LiveVals(a, L, m);
    seq(m.len, i requires 0 <= i < m.len => (ks[i], vs[i]))
  }

  /** The iterators as written yield the entries in use exactly when the
      object is full; otherwise they go on past them into the unused
      slots. */
  lemma IterWalksCapacity<C, K(!new), V(!new)>(a: Arena<C>, L: Layouts<C, K, V>, m: Object<K, V>)
    requires Wf(a, L, m)
    ensures Iter(a, L, m)[..m.len] == Entries(a, L, m)
    ensures Iter(a, L, m) == Entries(a, L, m) <==> Full(m)
    ensures Keys(a, L, m) == LiveKeys(a, L, m) <==> Full(m)
    ensures Vals(a, L, m) == LiveVals(a, L, m) <==> Full(m)
    ensures |Iter(a, L, m)| - |Entries(a, L, m)| == m.keys.len - m.len
  {
    var it := Iter(a, L, m);
    var es := Entries(a, L, m);
    assert it[..m.len] == es;
    if Full(m) {
      assert it == it[..m.len];
      assert Keys(a, L, m) == Keys(a, L, m)[..m.len];
      assert Vals(a, L, m) == Vals(a, L, m)[..m.len];
    }
  }
}
