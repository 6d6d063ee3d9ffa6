/** The primitive values that cross the native boundary of the tokenizer bridge. */
module BoundaryTypes {

  /** An unsigned 32-bit id, as the tokenization engine emits it. */
  newtype u32 = x: int | 0 <= x < 0x1_0000_0000

  /** A signed 32-bit id, the element type of an exported buffer. */
  newtype i32 = x: int | -0x8000_0000 <= x < 0x8000_0000

  /** The largest value of `i32`, seen as a `u32` (Rust's `i32::MAX as u32`). */
  const I32Max: u32 := 0x7fff_ffff

  /** The bytes of a NUL-terminated C string, without the terminator; the text is opaque to the bridge. */
  type CStr = seq<bv8>

  /**
   * A non-null `*mut i32` handed to the caller. `Dangling` is the well-aligned, non-null address that an
   * empty boxed slice carries (the same for every empty buffer, owning no storage); `Heap(address)` is the
   * start of a real allocation.
   */
  datatype Handle = Dangling | Heap(address: nat)

  /** The caller-owned `usize` slot that `encode_to_ids` writes the buffer length into. */
  class Cell {
    var v: nat

    constructor (v: nat)
      ensures this.v == v
    {
      this.v := v;
    }
  }
}
