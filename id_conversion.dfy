/**
 * The checked narrowing of the engine's `u32` ids to the boundary's `i32` ids: all ids fit and are
 * copied in order, or the whole conversion fails.
 */
module IdConversion {
  import opened Wrappers
  import opened BoundaryTypes

  /**
   * Reference definition of the conversion, built up one id at a time from the front, as the loop in
   * `encode_to_ids` does: the conversion of a non-empty sequence is the conversion of everything but its
   * last id, extended by that id when it fits.
   */
  function Narrow(ids: seq<u32>): (r: Option<seq<i32>>)
    ensures r.Some? <==> forall i :: 0 <= i < |ids| ==> ids[i] <= I32Max
    ensures r.Some? ==> |r.value| == |ids|
    ensures r.Some? ==> forall i :: 0 <= i < |ids| ==> r.value[i] as int == ids[i] as int
    decreases |ids|
  {
    if ids == [] then Some([])
    else
      var last := ids[|ids| - 1];
      match Narrow(ids[..|ids| - 1])
      case None => None
      case Some(prefix) => if last <= I32Max then Some(prefix + [last as i32]) else None
  }

  /**
   * The conversion loop itself: pushes each id, in order, onto a growing buffer and gives up at the first id
   * above `i32::MAX`, returning no partial buffer.
   */
  method NarrowIds(ids: seq<u32>) returns (r: Option<seq<i32>>)
    ensures r == Narrow(ids)
  {
    var out: seq<i32> := [];
    for k := 0 to |ids|
      invariant Narrow(ids[..k]) == Some(out)
    {
      if ids[k] > I32Max {
        return None;
      }
      out := out + [ids[k] as i32];
      assert ids[..k + 1][..k] == ids[..k];
    }
    assert ids[..|ids|] == ids;
    return Some(out);
  }
}
