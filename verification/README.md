# alloc — a bump-pointer arena and the containers built on it, in Dafny

The Go package `alloc` hands out typed storage inside a buffer it owns. There are two allocators behind one `Allocator` interface:

- `PageAllocator` is a fixed 4096-byte page that fails once it is full.
- `ExpandingAllocator` is a growing buffer that relocates (copies itself into a buffer twice as large) when a request does not fit.

On top of them sit:

- `Ptr[T]`, a logical pointer: an allocator plus an offset, resolved afresh on every access so that it survives relocation;
- `Array[T]`, a header (data pointer, length) stored in the arena, viewed as a Go slice;
- `String`, an `Array[byte]` with copying and aliasing conversions to Go strings and a byte-wise comparison;
- `Object[K, T]`, a map kept as two parallel arrays (keys and values) searched linearly and grown by doubling.

This project models all of these as pure functions over immutable values and proves what the code promises about them.

## How the model is built

- **Memory.** The arena is a sequence of cells `seq<C>`, indexed by byte offset. `Arenas.Arena<C>` is the `Allocator` interface. It is either a `PageAllocator` or an `ExpandingAllocator`, with a cursor, the cells and a buffer generation. The generation changes when the expanding allocator relocates, so an `Address(generation, index)` plays the role of Go's raw `unsafe.Pointer`.
- **Types in memory.** What Go's `unsafe.Sizeof`, `unsafe.Alignof`, pointer cast and zero value know about a type `T` is a `Buffers.Layout<C, T>`: size, alignment, zero, and an encoder and decoder that round-trip.
  - The byte-level scenarios use `C = byte` and a little-endian `uint64` layout (`LittleEndian`).
  - The container scenarios use a small cell universe (`CellScenarios.Cell`), so headers need no byte encoding.
  - Array headers are 32 bytes with alignment 8: an 8-byte offset, a 16-byte interface value and an 8-byte length. Object headers are 72 bytes.
- **Go conventions.** A Go panic becomes a `requires`. A Go `(value, error)` pair becomes `Base.Outcome(state, value, err)`. `Ptrs.NullPtr` and `Arrays.ZeroArray` are Go's zero values. A method with a pointer receiver returns the new state; one with a value receiver cannot change its receiver.
- **Reference definitions.** The object's entries are related to an association list. `Objects.Find`, `Objects.Lookup` and `Objects.Assign` are its first-occurrence search, lookup and update. `Strings.LexLess` is the textbook lexicographic order.
- **Behaviour worth knowing, as the code has it:**
  - Growth capacity. Growing an object sets its capacity to twice the count, and to 10 only when the count is zero (object.go:64-67).
  - The growing allocator applies no alignment, and its constructor takes no argument: the initial capacity is always 4096 (expanding_allocator.go:21-24, 29-42).
  - Key comparison. Keys compare with Go `==` (object.go:49), which for a `String` key compares headers, not contents.

Modules, in dependency order:

- `Base`, `Buffers`, `Alignment`, `Arith`
- `PageAlloc`, `ExpandingAlloc`, `Arenas`
- `Ptrs`, `Alloc`, `LittleEndian`
- `Arrays`, `Strings`, `Objects`
- `ByteScenarios`, `CellScenarios`: the package's tests, restated as methods whose postconditions are the tests' assertions.

## Model

| member | source | states |
|---|---|---|
| `Alignment.Align` | alloc.go:69-75 | the result is a multiple of the alignment, in `[index, index + alignment)`, and equals `index` when `index` is already aligned |
| `Alignment.AlignIsLeast` | alloc.go:69-75 | no multiple of the alignment at or after `index` lies below `align(index)`: it is the least such multiple |
| `Alignment.AlignIdempotent` | alloc.go:70-72 | aligning an aligned offset changes nothing |
| `PageAlloc.PageAllocator.Alloc` | page_allocator.go:25-35 | fails exactly when the aligned end passes 4096; on failure returns 0 and `ErrMemoryExhausted` with the page untouched; on success returns the aligned start and moves the cursor to start + size |
| `PageAlloc.PageAllocator.Offset` | page_allocator.go:38-40 | cell `offset` of the single, never-replaced page; an offset past the page is Go's index panic |
| `PageAlloc.PageAllocator.Available` | page_allocator.go:44-46 | room left plus cursor is the page size |
| `PageAlloc.PageAllocator.Reset` | page_allocator.go:51-53 | cursor back to 0, page contents kept |
| `PageAlloc.NewPageAllocator` | page_allocator.go:18-20 | an empty page of zero cells |
| `PageAlloc.AvailableIsRoom` | page_allocator.go:25-46 | an unaligned request succeeds exactly when it fits in `Available()`, and uses up exactly its size |
| `PageAlloc.AllocAll` | page_allocator.go:25-35 | a run of requests stops at the first failure, which leaves the page as it was; every reservation is aligned, lies between the old and new cursor, and ends before the next begins |
| `ExpandingAlloc.ExpandingAllocator.Alloc` | expanding_allocator.go:29-42 | never fails; returns the old length and extends it by `size`; old contents are kept; if the request does not fit, the buffer is replaced by one of capacity `2·end` (a new generation), otherwise the buffer stays the same |
| `ExpandingAlloc.ExpandingAllocator.Offset` | expanding_allocator.go:45-47 | cell `offset` of the current buffer generation; an offset past the length is Go's slice-index panic |
| `ExpandingAlloc.ExpandingAllocator.Available` | expanding_allocator.go:51-53 | always `MaxUint64` |
| `ExpandingAlloc.ExpandingAllocator.Reset` | expanding_allocator.go:58-60 | length back to 0, same buffer and generation |
| `ExpandingAlloc.NewExpandingAllocator` | expanding_allocator.go:21-24 | empty, capacity 4096, zero cells |
| `ExpandingAlloc.AllocAdjacent` | expanding_allocator.go:29-42 | two successive allocations are adjacent: there is no alignment padding |
| `Arenas.Arena.Alloc` | alloc.go:14-18 | the interface's `Alloc`: only cells at or above the old cursor may change; a page fails exactly when the aligned end passes 4096, and then the arena is as it was and the offset is 0; a page result is the aligned cursor; the expanding allocator never fails and returns the old cursor |
| `Arenas.Arena.Offset` | alloc.go:20-22 | resolves an offset to an address in the current buffer generation |
| `Arenas.Arena.Available` | alloc.go:24-25 | 4096 minus the cursor for a page, `MaxUint64` when expanding |
| `Ptrs.Ptr.Deref` | ptr.go:16-20 | the value decoded from the cells at the pointer's offset in the allocator's current buffer |
| `Ptrs.Ptr.IsNull` | ptr.go:35-38 | a pointer is null exactly when it has no allocator, whatever its offset |
| `Ptrs.Ptr.Set` | ptr.go:22-27 | only the value's own cells change, and `Deref` then returns the value written |
| `Ptrs.Ptr.Bytes` | ptr.go:29-33 | exactly `Sizeof(T)` cells at the offset, which decode to `Deref` |
| `Ptrs.NullIffNoAllocator` | ptr.go:35-38 | `IsNull` holds exactly when the pointer has no allocator: the zero `Ptr` is null, one naming an allocator is not |
| `Ptrs.Ptr.Null` | ptr.go:40-43 | as written: the receiver is a copy, so the pointer is returned unchanged |
| `Ptrs.NullKeepsPointer` | ptr.go:40-43 | a non-null pointer is still non-null after `Null()`, while the corrected `Nulled` makes it null |
| `Ptrs.Ptr.Nulled` | ptr.go:40-43 | corrected `Null`: the result is null |
| `Ptrs.DerefSurvivesGrowth` | ptr.go:5-10 | a pointer into allocated memory reads the same value after any later allocation, relocations included |
| `Ptrs.SetLeavesOthers` | ptr.go:25-27 | a write through one pointer leaves any value it does not overlap unchanged |
| `Alloc.New` | alloc.go:28-37 | as written: passes through the allocator's state, offset and error for a request of `Sizeof(T)` cells at `Alignof(T)`; on error the allocator is unchanged and the offset is 0, yet the returned `Ptr` always refers to the allocator, so it is non-null; on success it sits at or above the old cursor, ends at the new one, and is aligned in a page |
| `Alloc.NewErrorNotNull` | alloc.go:36 | on a full page `New` reports `ErrMemoryExhausted` and still returns a non-null pointer, where `NewChecked` returns null |
| `Alloc.NewChecked` | alloc.go:28-37 | corrected `New`: the pointer is null exactly when an error is reported |
| `Alloc.Must` | alloc.go:39-46 | callable only without an error (Go panics otherwise); passes the value through |
| `LittleEndian.DecodeEncode` | alloc_test.go:13-17 | decoding the n-byte little-endian encoding of `v` gives back `v` |
| `LittleEndian.EncodeDecode` | alloc_test.go:13-17 | encoding the decoded value of a byte string gives back the byte string |
| `LittleEndian.U64Layout` | alloc_test.go:12-17 | a `uint64` occupies 8 bytes with alignment 8, and its encoding round-trips |
| `Arrays.Elem` | array.go:16-21 | element `i` is decoded from the cells at `data.offset + i·Sizeof(T)` |
| `Arrays.Slice` | array.go:16-21 | the slice has `len` elements, element `i` being `Elem(i)` |
| `Arrays.Length` | array.go:23-26 | the header's length, which `LengthIsSliceLength` shows is the number of elements `Slice` exposes |
| `Arrays.LengthIsSliceLength` | array.go:23-26 | `Length()` equals the length of `Slice()` |
| `Arrays.Iter` | array.go:45-54 | yields the slice's elements, in order |
| `Arrays.IterIndex` | array.go:56-65 | yields `(i, element i)` for every index, in order |
| `Arrays.SetElem` | array.go:16-18 | writing through the slice changes only element `i`'s cells, and the slice becomes the old one with `i` replaced |
| `Arrays.WriteElems` | array.go:41 | Go's `copy` into the slice: the written run replaces that range, and only the array's cells change |
| `Arrays.SliceSurvivesGrowth` | array.go:8-10 | a placed array reads the same after any later allocation |
| `Arrays.NewArray` | array.go:67-94 | on a page, fails exactly when the elements at their alignment and then the 32-byte header at alignment 8 would end past 4096 (`ArrayEnd`), giving the zero `Ptr` and `ErrMemoryExhausted`; on success the cursor stands at `ArrayEnd`, and the header at the pointer holds `len` and data placed at or above the old cursor, below the header, aligned in a page |
| `Arrays.SmallArrayFitsEmptyPage` | array.go:69-94 | on an empty page, `NewArray` succeeds whenever the elements leave room for one alignment gap and the header |
| `Arrays.NewArrayFrom` | string.go:17-23 | `NewArray` followed by `copy`: fails exactly when `NewArray` would; on success the new array's first elements are the given ones |
| `Arrays.TryExpand` | array.go:28-43 | corrected `Expand`: an allocation error is reported, on a page exactly when the new array does not fit (`ArrayEnd` past 4096); on success the new array has `size` elements, fresh storage, and the old elements as its prefix; the old array is untouched |
| `Arrays.Expand` | array.go:28-43 | as written: never reports an error; whenever the allocation succeeds the result is exactly `TryExpand`'s; on a page the result is the zero `Array` exactly when the new array does not fit (`ArrayEnd` past 4096) |
| `Arrays.ExpandSwallowsError` | array.go:36-39 | on a full page `Expand` returns the zero `Array` with no error, where `TryExpand` reports `ErrMemoryExhausted` |
| `Strings.NewStringFromBytesChecked` | string.go:15-24 | corrected: an allocation error is reported with a null pointer, on a page exactly when the array does not fit; on success the string holds exactly the given bytes in fresh storage |
| `Strings.NewStringFromBytes` | string.go:15-24 | as written: never reports an error; whenever the allocation succeeds the result is exactly the checked constructor's, a string holding the bytes; on a page the result is the null pointer exactly when the array does not fit |
| `Strings.NewStringFromBytesSwallowsError` | string.go:17-20 | on a full page `NewStringFromBytes`, and `NewString` through it, return a null pointer and no error, where the checked form reports `ErrMemoryExhausted` |
| `Strings.NewString` | string.go:10-13 | goes through the unchecked `NewStringFromBytes`: never reports an error; when the allocation succeeds the result holds the Go string's bytes, exactly as the checked constructor gives them; on a page it is the null pointer exactly when the array does not fit |
| `Strings.Owned` | string.go:26-29 | `String()` copies out exactly the string's bytes |
| `Strings.Cast` | string.go:31-44 | an empty string gives `""` without touching memory; any other gives a view aliasing live arena bytes |
| `Strings.CastShowsContent` | string.go:31-44 | reading the view gives the string's content |
| `Strings.ViewAliasesCopyDoesNot` | string.go:31-34 | after a write to the string's bytes, the `Cast` view shows the new bytes while the `String()` copy keeps the old ones |
| `Strings.ViewDiesOnRelocation` | string.go:31-44 | on the expanding allocator, a `Cast` view taken before an allocation still aliases the allocator's current buffer afterwards exactly when the request fit the capacity; a relocating allocation leaves it on the old buffer |
| `Strings.Compare` | string.go:46-49 | `cmp.Compare` on byte strings: -1, 0 or 1, and 0 exactly for equal strings |
| `Strings.CompareAntisymmetric` | string.go:46-49 | swapping the arguments negates the result |
| `Strings.CompareTransitive` | string.go:46-49 | "less than" is transitive |
| `Strings.CompareIsLexicographic` | string.go:46-49 | -1 exactly when the first string is a proper prefix or smaller at the first difference |
| `Strings.Cmp` | string.go:46-49 | `Cmp` is `Compare` of the two strings' contents, and 0 exactly when the contents are equal |
| `Strings.CmpReflexiveAntisymmetric` | string.go:46-49 | a string compares equal to itself, and swapping the arguments negates the result |
| `Objects.Find` | object.go:41-55 | the first position holding the key, or -1 exactly when the key is absent |
| `Objects.LookupAssignSame` | object.go:90-120 | on the association list, looking up a key just assigned gives its new value |
| `Objects.LookupAssignOther` | object.go:90-120 | assigning one key leaves the lookup of every other key unchanged |
| `Objects.AssignKeepsDistinct` | object.go:90-108 | assigning keeps the keys free of duplicates |
| `Objects.LiveKeys` | object.go:6-10 | the keys in use are the first `len` slots of the key array |
| `Objects.Index` | object.go:41-55 | -1, or a slot below `len` holding the key |
| `Objects.IndexFromIsFind` | object.go:44-52 | the loop from slot `x` on, with the key absent before `x`, finds what `Find` finds among the live keys |
| `Objects.IndexIsFind` | object.go:41-55 | `index` is `Find` over the live keys: the first live slot holding the key, -1 exactly when absent |
| `Objects.FullIffNoFreeSlot` | object.go:57-60 | `full()` holds exactly when the live keys fill the key array |
| `Objects.Full` | object.go:57-60 | `full()`: the count has reached the key array's capacity |
| `Objects.NewCapacity` | object.go:64-67 | twice the count, or 10 for an empty object; always more than the count |
| `Objects.FullGrowthExpands` | object.go:62-84 | growing a full object asks for a larger capacity, so `Expand`'s panic cannot fire |
| `Objects.Get` | object.go:111-120 | the value of the first live slot holding the key and `true`, or the zero value and `false`: the association-list lookup |
| `Objects.Grow` | object.go:62-84 | corrected `grow`: both arrays expanded to the new capacity with the entries copied, count unchanged, new arrays above the old cursor; it fails exactly when, on a page, the expanded key array and then value array would end past 4096 (`GrowFits`), and then the object and its entries are as they were |
| `Objects.GrowAsWritten` | object.go:62-84 | as written: no error is ever seen, and the count becomes the new capacity |
| `Objects.GrowAsWrittenBreaksSet` | object.go:79 | after growing a full object as written, the count differs from the entries and is not below the capacity, so `Set`'s write at slot `len` is out of range; the corrected `Grow` leaves the count below the capacity |
| `Objects.WriteKey` | object.go:105 | writing key slot `i` changes only that key, and nothing outside the object |
| `Objects.WriteVal` | object.go:106 | writing value slot `i` changes only that value, and nothing outside the object |
| `Objects.Overwrite` | object.go:92-95 | an existing key's value is replaced in place; the keys and the rest of memory are unchanged |
| `Objects.Append` | object.go:105-107 | with room, the key and value are added after the live entries and the count grows by one |
| `Objects.Insert` | object.go:97-108 | built on the corrected `Grow`: an absent key is appended, growing a full object first; it fails exactly when the object is full and `Grow` finds no room, and then the entries are as they were |
| `Objects.Set` | object.go:90-109 | built on the corrected `Grow` (as written, `Set` never sees an error because `Expand` drops it): the entries become the association-list assignment of key to value; it fails exactly when the key is absent, the object is full and, on a page, `Grow` finds no room, and then the object and its entries are as they were (the arena may keep a partial allocation); an existing key or a free slot never grows the object; memory outside the object is untouched |
| `Objects.GetAfterSet` | object.go:90-120 | after a successful `Set(k, v)`, `Get(k)` gives `(v, true)` |
| `Objects.GetAfterSetOther` | object.go:90-120 | `Set(k, v)` leaves `Get` of every other key unchanged |
| `Objects.SetKeepsKeysDistinct` | object.go:90-109 | `Set` never stores a key twice |
| `Objects.NewObject` | object.go:12-39 | fails exactly when, on a page, the 72-byte header, the key array and the value array would not all fit in 4096 (`ObjectFits`), giving a null pointer and `ErrMemoryExhausted`; on success the header holds two arrays of the requested capacity, count 0, the keys placed before the values |
| `Objects.NewObjectArrays` | object.go:22-38 | after the header is reserved: fails exactly when, on a page, the key array and then the value array would end past 4096, with a null pointer; on success the header holds both arrays of the requested capacity and count 0 |
| `Objects.Iter` | object.go:125-134 | as written: one pair per slot of the key array, live or not, each the key and value stored in that slot; its first `len` pairs are the entries |
| `Objects.Keys` | object.go:137-145 | as written: the key stored in every capacity slot; the first `len` are the live keys |
| `Objects.Vals` | object.go:148-156 | as written: the value stored in every capacity slot; the first `len` are the live values |
| `Objects.Entries` | object.go:125-156 | corrected iteration: exactly the `len` live key/value pairs, in slot order |
| `Objects.IterWalksCapacity` | object.go:125-156 | `Iter`, `Keys` and `Vals` as written agree with the live entries exactly when the object is full; otherwise they yield `capacity - len` extra slots |
| `ByteScenarios.TestAlloc` | alloc_test.go:10-18 | two `uint64` values written into a page lay out as eight `0xff` bytes, then four `0xff` and four zero bytes |
| `ByteScenarios.TestPtr` | alloc_test.go:20-35 | with an 8-byte expanding buffer, the second allocation relocates it: the first pointer's address changes, its value stays 100 |
| `CellScenarios.FillIndices` | array_test.go:14-16 | the loop `b[x] = x` leaves the slice holding its indices, writing only the array's cells |
| `CellScenarios.TestSlice` | array_test.go:9-19 | a 10-element array filled with its indices reads back as 0 to 9 |
| `CellScenarios.UptoLookups` | object_test.go:68-72 | an object holding the pairs (x, x) for x below n finds each of them, misses n, and iterates them in order |
| `CellScenarios.TestObject` | object_test.go:52-92 | inserting 0 to 9 into an object of any initial capacity: each key is found with its value, an absent key gives `(0, false)`, the entries come out in insertion order, and at capacity 10 the iterators as written agree with the entries |
| `CellScenarios.TestSimpleObject` | object_test.go:10-50 | a capacity-1 object mapping the `String` "key" to "value": that key gives "value" and `true`; a different key gives the empty string and `false` |

## Left out

- `align_slice` (alloc.go:58-66) aligns a Go slice by its machine address. The model has no machine addresses, and no operation calls it.
- The `Primitive` interface (alloc.go:48-52) is not modelled as an interface. Its only implementation, `String.Cast`, is `Strings.Cast`.
- `ErrOutOfRange` (alloc.go:10) is declared but never returned. It appears only as a constructor of `Base.Error`.
- `uintptr` and `int` wrap-around is not modelled. Integers are unbounded, and lengths and sizes are `nat`. This affects `start + size`, `end * 2`, `Sizeof(T) * uintptr(len)` and `int(end)` in the allocators, and a negative `len` passed to `NewArray`, `NewObject` or `Expand`.
- Raw pointers. `Deref` returns a `*T` into the buffer. The model reads or writes the value instead. Aliasing through a raw Go pointer is modelled only for `Cast`, by `Strings.View`.
- `Objects.Set` modelling. Go mutates the header through `m *Object`. If the object came from `Deref` on an expanding allocator that relocates while growing, that pointer targets the old buffer. The model returns the new header value and does not write it back into the arena.
- Early termination of `iter.Seq` iterators (`yield` returning false) is not modelled. The iterators are sequences of everything they would yield, and stopping early yields a prefix.
- `ExpandingAlloc.ExpandingAllocator.Alloc` takes no alignment, as written. The `Allocator` interface asks for one, and `Arenas.Arena.Alloc` ignores it for this allocator. Page results are aligned; expanding results need not be.
- Uninitialized memory is modelled only loosely. The expanding allocator's new buffer is filled with a zero cell, and a reset page keeps its old cells. Which values uninitialized cells hold is never used in a proof.
- bytes.go repeats `Array`, `Slice` and `NewArray` from array.go. It is modelled once, by `Arrays`.
- The tests call APIs that these sources do not define: `NewExpandingAllocator(n)`, a three-parameter `NewObject`, `IterPrimitive`, `PrimitiveKeys`, and `Get` with a Go string. The scenarios follow the tests' intent with the APIs that exist:
  - `ByteScenarios.TestPtr` builds an expanding allocator of capacity 8 directly.
  - `CellScenarios.TestObject` uses integer keys 0 to 9, not their decimal strings.
  - `CellScenarios.TestSimpleObject` looks keys up with `String` headers. A `String` key compares by Go `==` on its header, so a different header with equal bytes would not be found.
- Benchmarks (alloc_test.go:37-95) measure speed only, which the model does not address.

## Findings

| source | as written | input that shows it | evidently intended | confidence | as-written member | corrected member |
|---|---|---|---|---|---|---|
| object.go:79 | `grow` sets `m.len = newlen`, so the count of entries becomes the new capacity | a full object (count = capacity = 1) on an expanding allocator, or on a page with room for both arrays: after `grow` the count is 2 = capacity, so `Set` writes slot 2 of a 2-slot array | growth changes the capacity only; the count stays the number of entries | high; not executed | `Objects.GrowAsWritten` / `Objects.GrowAsWrittenBreaksSet` | `Objects.Grow` |
| array.go:37-38 | `Expand` returns `Array[T]{}, nil` when `NewArray` fails, dropping the error | a page allocator with its cursor at 4096: `Expand` gives the zero `Array` and no error | the allocation error is returned | high; not executed | `Arrays.Expand` / `Arrays.ExpandSwallowsError` | `Arrays.TryExpand` |
| string.go:18-19 | `NewStringFromBytes` returns `Ptr[String]{}, nil` when `NewArray` fails, dropping the error | a page allocator with its cursor at 4096: a null pointer and no error | the allocation error is returned | high; not executed | `Strings.NewStringFromBytes` / `Strings.NewStringFromBytesSwallowsError` | `Strings.NewStringFromBytesChecked` |
| alloc.go:36 | `New` returns `Ptr{offset, alloc: a}` together with the error, so the pointer is not null on failure | a page allocator with its cursor at 4096 and an 8-byte `T`: `ErrMemoryExhausted` with a non-null pointer at offset 0 | the zero `Ptr` on error, as `NewArray` and `NewObject` return | medium; not executed | `Alloc.New` / `Alloc.NewErrorNotNull` | `Alloc.NewChecked` |
| ptr.go:41-43 | `Null` has a value receiver, so `p.alloc = nil` changes a copy | any non-null `Ptr p`: after `p.Null()`, `p.IsNull()` is still false | a pointer receiver, so the pointer becomes null | high; not executed | `Ptrs.Ptr.Null` / `Ptrs.NullKeepsPointer` | `Ptrs.Ptr.Nulled` |
| object.go:125-156 | `Iter`, `Keys` and `Vals` range over the whole `Slice()`, capacity included | an object of capacity 10 holding one entry: `Keys` yields 10 keys, 9 of them unwritten slots | iterate over the `len` live entries | high; not executed | `Objects.Iter` / `Objects.IterWalksCapacity` | `Objects.Entries` |
