/**
 * The native boundary of the tokenizer bridge: one process-wide tokenizer slot, the encode entry point that
 * exports buffers to the caller, and the release entry point that takes them back.
 */
module Bridge {
  import opened Wrappers
  import opened BoundaryTypes
  import opened IdConversion
  import opened Registry
  import opened Encoding

  /**
   * The state behind the three exported functions. `load` and `engine` are the external tokenization
   * library, kept abstract; `registry` is the `TOKENIZER` slot; `live` is the ownership table of the buffers
   * exported and not yet released, keyed by the handle the caller holds; `nextAddress` stands for the
   * allocator, which never hands out an address that is still in use.
   */
  class TokenizerBridge<Tok> {
    const load: CStr -> Option<Tok>
    const engine: (Tok, CStr) -> Option<seq<u32>>
    var registry: Option<Tok>
    var live: map<Handle, seq<i32>>
    var nextAddress: nat

    /** Every buffer the caller owns is a real, non-empty allocation the allocator has already handed out. */
    ghost predicate Valid()
      reads this
    {
      forall h :: h in live ==> h.Heap? && h.address < nextAddress && |live[h]| > 0
    }

    /** Process start: the slot is empty and the caller owns no buffer. */
    constructor (load: CStr -> Option<Tok>, engine: (Tok, CStr) -> Option<seq<u32>>)
      ensures Valid()
      ensures this.load == load && this.engine == engine
      ensures registry == None && live == map[]
    {
      this.load := load;
      this.engine := engine;
      registry := None;
      live := map[];
      nextAddress := 0;
    }

    /** What loading `path` yields: nothing for a null path or a failed load. */
    function Attempt(path: Option<CStr>): Option<Tok>
    {
      if path.None? then None else load(path.value)
    }

    /**
     * `init_tokenizer`: fails on a null path or a failed load without touching the slot; otherwise installs
     * the loaded tokenizer if, and only if, the slot is still empty, and reports whether it did.
     */
    method InitTokenizer(path: Option<CStr>) returns (ok: bool)
      modifies this`registry
      ensures old(Valid()) ==> Valid()
      ensures ok <==> path.Some? && old(registry).None? && load(path.value).Some?
      ensures ok ==> registry == load(path.value)
      ensures !ok ==> registry == old(registry)
      ensures old(registry).Some? ==> !ok && registry == old(registry)
      ensures (registry, ok) == InitStep(old(registry), Attempt(path))
    {
      if path.None? {
        return false;
      }
      var loaded := load(path.value);
      if loaded.None? {
        return false;
      }
      var installed := InitStep(registry, loaded);
      registry := installed.0;
      ok := installed.1;
    }

    /**
     * `encode_to_ids`: with a null length slot, returns null and changes nothing. Otherwise the slot is
     * zeroed first; every failure (null text, empty registry, engine error, an id above `i32::MAX`) returns
     * null, leaves the slot at 0 and exports nothing; a success writes the number of ids to the slot and
     * returns a buffer holding exactly the engine's ids, in order, which the caller now owns (an empty result
     * is the dangling handle, which owns nothing). The registry is only read.
     */
    method EncodeToIds(text: Option<CStr>, outLen: Cell?) returns (h: Option<Handle>)
      requires Valid()
      modifies this`live, this`nextAddress, outLen
      ensures Valid()
      ensures registry == old(registry)
      ensures outLen == null || EncodePipeline(registry, text, engine).Err? ==> nextAddress == old(nextAddress)
      ensures outLen == null ==> h == None && live == old(live)
      ensures outLen != null ==>
                var r := EncodePipeline(registry, text, engine);
                (r.Err? ==> h == None && outLen.v == 0 && live == old(live)) &&
                (r.Ok? ==> h.Some? && outLen.v == |r.value|) &&
                (r.Ok? && |r.value| == 0 ==> h == Some(Dangling) && live == old(live)) &&
                (r.Ok? && |r.value| > 0 ==>
                   h.value.Heap? && h.value !in old(live) && live == old(live)[h.value := r.value])
    {
      if outLen == null {
        return None;
      }
      outLen.v := 0;
      if text.None? {
        return None;
      }
      if registry.None? {
        return None;
      }
      var encoding := engine(registry.value, text.value);
      if encoding.None? {
        return None;
      }
      var ids := NarrowIds(encoding.value);
      if ids.None? {
        return None;
      }
      var buffer := ids.value;
      if |buffer| == 0 {
        h := Some(Dangling);
      } else {
        h := Some(Heap(nextAddress));
        live := live[Heap(nextAddress) := buffer];
        nextAddress := nextAddress + 1;
      }
      outLen.v := |buffer|;
    }

    /**
     * `free_ids`: a null handle or a zero length is a no-op. Otherwise the handle must be one the caller owns,
     * with exactly the length reported for it (anything else is undefined behaviour the source cannot
     * detect), and exactly that buffer is destroyed.
     */
    method FreeIds(ptr: Option<Handle>, len: nat)
      requires Valid()
      requires ptr.Some? && len != 0 ==> ptr.value in live && |live[ptr.value]| == len
      modifies this`live
      ensures Valid()
      ensures ptr.None? || len == 0 ==> live == old(live)
      ensures ptr.Some? && len != 0 ==> ptr.value !in live && live == old(live) - {ptr.value}
    {
      if ptr.None? || len == 0 {
        return;
      }
      live := live - {ptr.value};
    }
  }

  /**
   * Several callers initialising the bridge one after another: the results are those of `InitAll`, so at
   * most one call reports `true` and the slot ends up with the first tokenizer that loaded.
   */
  method InitializeInTurn<Tok>(b: TokenizerBridge<Tok>, paths: seq<Option<CStr>>) returns (oks: seq<bool>)
    modifies b`registry
    ensures (b.registry, oks) == InitAll(old(b.registry), seq(|paths|, i requires 0 <= i < |paths| => b.Attempt(paths[i])))
    ensures Installs(oks) <= 1
    ensures old(b.registry).Some? ==> b.registry == old(b.registry)
  {
    ghost var attempts := seq(|paths|, i requires 0 <= i < |paths| => b.Attempt(paths[i]));
    ghost var start := b.registry;
    oks := [];
    assert attempts[0..] == attempts;
    assert oks + InitAll(start, attempts).1 == InitAll(start, attempts).1;
    for k := 0 to |paths|
      invariant InitAll(start, attempts) == (InitAll(b.registry, attempts[k..]).0, oks + InitAll(b.registry, attempts[k..]).1)
    {
      ghost var before, rest := b.registry, InitAll(InitStep(b.registry, attempts[k]).0, attempts[k + 1..]);
      assert attempts[k..][0] == attempts[k];
      assert attempts[k..][1..] == attempts[k + 1..];
      assert InitAll(before, attempts[k..]) == (rest.0, [InitStep(before, attempts[k]).1] + rest.1);
      var ok := b.InitTokenizer(paths[k]);
      assert (b.registry, ok) == InitStep(before, attempts[k]);
      assert oks + ([ok] + rest.1) == (oks + [ok]) + rest.1;
      oks := oks + [ok];
    }
    assert attempts[|paths|..] == [];
    assert oks + [] == oks;
    InitializeOnce(start, attempts);
  }

  /**
   * The caller's side of the ownership protocol: encode, and release a non-null result with the length the
   * slot reports. The release's precondition is met, and afterwards the caller owns nothing new.
   */
  method EncodeThenRelease<Tok>(b: TokenizerBridge<Tok>, text: Option<CStr>) returns (count: nat)
    requires b.Valid()
    modifies b`live, b`nextAddress
    ensures b.Valid()
    ensures b.live == old(b.live) && b.registry == old(b.registry)
    ensures var r := EncodePipeline(b.registry, text, b.engine);
            count == if r.Ok? then |r.value| else 0
  {
    var outLen := new Cell(0);
    var h := b.EncodeToIds(text, outLen);
    count := outLen.v;
    if h.Some? {
      b.FreeIds(h, outLen.v);
    }
  }

  /** Releasing a null handle, or any handle with length 0, any number of times changes nothing. */
  method RepeatNoOpRelease<Tok>(b: TokenizerBridge<Tok>, ptr: Option<Handle>, len: nat, times: nat)
    requires b.Valid()
    requires ptr.None? || len == 0
    modifies b`live
    ensures b.Valid() && b.live == old(b.live)
  {
    for k := 0 to times
      invariant b.Valid() && b.live == old(b.live)
    {
      b.FreeIds(ptr, len);
    }
  }
}
