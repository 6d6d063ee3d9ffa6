/** The encoding pipeline of `encode_to_ids`, from the tokenizer slot and the text to a buffer or an error. */
module Encoding {
  import opened Wrappers
  import opened BoundaryTypes
  import opened IdConversion

  /** The internal failure kinds; the boundary reports all of them as a null handle with length 0. */
  datatype EncodeError = InvalidText | TokenizerUnavailable | EngineFailure | IdOverflow

  /**
   * The outcome of encoding `text` with the slot's tokenizer, checking in the source's order: the text,
   * then the slot, then the engine, then the range of every id.
   */
  function EncodePipeline<Tok>(registry: Option<Tok>, text: Option<CStr>, engine: (Tok, CStr) -> Option<seq<u32>>)
    : (r: Result<seq<i32>, EncodeError>)
    ensures text.None? ==> r == Err(InvalidText)
    ensures text.Some? && registry.None? ==> r == Err(TokenizerUnavailable)
    ensures text.Some? && registry.Some? && engine(registry.value, text.value).None? ==> r == Err(EngineFailure)
    ensures r.Ok? || r == Err(IdOverflow) <==> text.Some? && registry.Some? && engine(registry.value, text.value).Some?
    ensures r.Ok? ==>
              var ids := engine(registry.value, text.value).value;
              |r.value| == |ids| && forall i :: 0 <= i < |ids| ==> r.value[i] as int == ids[i] as int
    ensures r == Err(IdOverflow) ==>
              var ids := engine(registry.value, text.value).value;
              exists i :: 0 <= i < |ids| && ids[i] > I32Max
    ensures r.Ok? <==> text.Some? && registry.Some? && engine(registry.value, text.value).Some? &&
                       forall i :: 0 <= i < |engine(registry.value, text.value).value| ==>
                                   engine(registry.value, text.value).value[i] <= I32Max
  {
    if text.None? then Err(InvalidText)
    else if registry.None? then Err(TokenizerUnavailable)
    else match engine(registry.value, text.value)
      case None => Err(EngineFailure)
      case Some(ids) =>
        match Narrow(ids)
        case None => Err(IdOverflow)
        case Some(buffer) => Ok(buffer)
  }
}
