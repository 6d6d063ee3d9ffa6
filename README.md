# Tokenizer bridge: a Dafny model of the native boundary

This project models the native boundary of a text-tokenizer bridge: three C-ABI functions that a managed
runtime calls to load a tokenizer once per process, to encode text into a buffer of `i32` token ids that the
caller then owns, and to hand that buffer back for destruction.

- `Registry` models the process-wide `TOKENIZER` slot, a set-once cell (`OnceLock`): `InitStep` is one
  `init_tokenizer` call, including the cell's `set`, `InitAll` a run of calls, and `InitializeOnce` proves that at most one
  call of a run installs a tokenizer and that the first tokenizer loaded is the one kept.
- `IdConversion` models the loop that narrows the engine's `u32` ids to `i32`: `Narrow` is the reference
  definition on prefixes, `NarrowIds` the loop, proved equal to it.
- `Encoding` states the whole encode pipeline as a function with its four internal failure kinds, checked in
  the source's order.
- `Bridge` holds the state machine: class `TokenizerBridge` with the slot (`registry`), the ownership table of
  exported buffers (`live`) and the three entry points `InitTokenizer`, `EncodeToIds` and `FreeIds`; the
  caller's out-length pointer is a nullable `Cell`, a pointer argument is an `Option` (`None` is null). Three
  client methods show what callers can rely on.

The tokenization library is a black box: the loader (`Tokenizer::from_file`) and the engine
(`tokenizer.encode`) are function-valued constants of the bridge, `load` and `engine`. Nothing is assumed
about them except that the engine's ids are `u32` values and that, being constants, they are deterministic.

There is one encode entry point, and it reads the process-wide slot. An empty encoding result is a non-null
dangling handle with length 0; it owns no storage and is never entered in `live`.

## Model

| member | source | states |
|---|---|---|
| `IdConversion.Narrow` | src/lib.rs:56-62 | the conversion succeeds exactly when every engine id is at most `i32::MAX`; a success has one `i32` per engine id, equal in value and in the same position |
| `IdConversion.NarrowIds` | src/lib.rs:56-62 | the conversion loop returns exactly the reference conversion: no partial buffer on overflow, the in-order conversion otherwise (its invariant: the buffer is the conversion of the prefix processed so far) |
| `Registry.InitStep` | src/lib.rs:11-24 | an init call returns true exactly when the slot was empty and the load succeeded, and the slot then holds that tokenizer; in every other case the slot is unchanged, and an occupied slot is never replaced |
| `Registry.InitializeOnce` | src/lib.rs:7-24 | over any run of init calls, at most one returns true, exactly one does when the slot started empty and some load succeeded, the slot ends with the first tokenizer loaded (or its original one), and a call that returned true installed the tokenizer the slot keeps |
| `Encoding.EncodePipeline` | src/lib.rs:38-62 | null text fails first, then an empty slot, then an engine error, then an id above `i32::MAX`; success happens exactly when the text is present, the slot is occupied, the engine succeeds and every id fits, and then the buffer equals the engine's ids element by element |
| `Bridge.TokenizerBridge.constructor` | src/lib.rs:7 | at process start the slot is empty and no exported buffer exists |
| `Bridge.TokenizerBridge.InitTokenizer` | src/lib.rs:10-25 | returns false and leaves the slot unchanged for a null path, a failed load or an occupied slot; otherwise installs the loaded tokenizer and returns true; the step is the one `InitStep` describes, and the ownership invariant is kept |
| `Bridge.TokenizerBridge.EncodeToIds` | src/lib.rs:28-70 | a null length slot gives null and no change; otherwise every failure gives null, length 0 and no new buffer, and a success writes the id count and returns a handle to a buffer equal to the engine's ids, newly owned by the caller (dangling and unowned when empty); the allocator state changes only on success, the registry is never changed and the ownership invariant is kept |
| `Bridge.TokenizerBridge.FreeIds` | src/lib.rs:73-81 | a null handle or a zero length changes nothing; a live handle with its exact length is removed from the ownership table and nothing else changes |
| `Bridge.InitializeInTurn` | src/lib.rs:7-24 | successive init calls on one bridge produce the results of `InitAll`, so at most one of them reports true and an occupied slot keeps its tokenizer |
| `Bridge.EncodeThenRelease` | test/TestMain.java:16-34 | encoding and then releasing a non-null result with the reported length is always permitted and leaves the ownership table as it was; the reported length is the id count on success and 0 on failure |
| `Bridge.RepeatNoOpRelease` | src/lib.rs:73-76 | releasing a null handle, or any handle with length 0, any number of times changes no state |

## Left out

- The tokenization library (`Tokenizer::from_file`, `Tokenizer::encode` with special tokens enabled): kept as the uninterpreted `load` and `engine`; their errors appear only as `None`.
- Loading and encoding are modelled as deterministic: the same path always loads the same way and the same text always encodes the same way, so a tokenizer file that appears, disappears or changes between calls is not captured (`InitializeOnce` itself holds for any sequence of load outcomes).
- Reading C strings and lossy UTF-8 recovery: a path or text is an opaque byte string, or null.
- Thread safety of `OnceLock` and concurrent init races: init is modelled sequentially; `InitializeOnce` captures the set-once outcome of a run of calls in any order they happen to be serialised.
- Raw pointers and the allocator (`Box::into_raw`, `slice_from_raw_parts_mut`, `Box::from_raw`): a buffer is a `seq<i32>` in the `live` table, handles are abstract, the allocator is a counter that never reuses an address, and destruction is removal from the table.
- Bridge.TokenizerBridge.FreeIds: a wrong length, a double release or the release of a handle that was never exported is undefined behaviour in the source; the model excludes it by precondition instead of describing it.
- Releasing a live handle with length 0 is a no-op in the source, so that buffer leaks; the model keeps it in `live`, as the source keeps the allocation.
- The `usize` width of lengths: lengths are unbounded `nat`; a `Vec` cannot exceed the platform's size range, so no wrap-around arises.
- The JNA binding declares the length as a 32-bit `int`/`IntByReference` while the native side uses `usize`; this ABI mismatch is not modelled.
- The Rust test `test_full_process`: its assertion of a non-zero length depends on a real tokenizer model file.
