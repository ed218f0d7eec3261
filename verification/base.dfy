/** Shared vocabulary of the arena: bytes, optional values, the errors the
    allocators report, raw addresses, and the (state, value, error) triple
    that every allocating call returns. */
module Base {

  /** One byte of an arena buffer. */
  newtype byte = x: int | 0 <= x < 256

  datatype Option<+T> = None | Some(value: T)

  /** The two sentinel errors declared in alloc.go. */
  datatype Error = ErrMemoryExhausted | ErrOutOfRange

  /** What an allocating call hands back: the allocator state after the
      call (Go mutates it through a pointer receiver), the value, and the
      Go error (`None` for nil). */
  datatype Outcome<S, V> = Outcome(state: S, value: V, err: Option<Error>)

  /** A raw address: which backing buffer it points into, and the index
      within that buffer. A buffer replaced by growth gets a new number,
      so an address taken before a relocation differs from one taken
      after it. */
  datatype Address = Address(buffer: nat, index: nat)
}
