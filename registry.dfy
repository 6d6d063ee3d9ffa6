/**
 * The process-wide tokenizer slot: a set-once cell that starts empty and, once filled, keeps its
 * tokenizer for the rest of the process.
 */
module Registry {
  import opened Wrappers

  /**
   * One `init_tokenizer` call, given the outcome of loading its path (`None` for a null path or a failed
   * load): the new slot and the boolean the call returns. Storing into the slot is `OnceLock::set`, which
   * fills an empty slot and refuses an occupied one.
   */
  function InitStep<T>(slot: Option<T>, loaded: Option<T>): (r: (Option<T>, bool))
    ensures r.1 <==> slot.None? && loaded.Some?
    ensures r.1 ==> r.0 == loaded
    ensures !r.1 ==> r.0 == slot
    ensures slot.Some? ==> r.0 == slot
    ensures r.0.None? ==> slot.None? && loaded.None?
  {
    if loaded.None? then (slot, false)
    else if slot.None? then (loaded, true)
    else (slot, false)
  }

  /** A run of `init_tokenizer` calls, one after another: the final slot and every call's result. */
  function InitAll<T>(slot: Option<T>, loads: seq<Option<T>>): (Option<T>, seq<bool>)
    decreases |loads|
  {
    if loads == [] then (slot, [])
    else
      var step := InitStep(slot, loads[0]);
      var rest := InitAll(step.0, loads[1..]);
      (rest.0, [step.1] + rest.1)
  }

  /** The number of calls that reported `true`. */
  function Installs(oks: seq<bool>): nat
    decreases |oks|
  {
    if oks == [] then 0 else (if oks[0] then 1 else 0) + Installs(oks[1..])
  }

  /** The first successful load of a run, if any. */
  function FirstLoaded<T>(loads: seq<Option<T>>): Option<T>
    decreases |loads|
  {
    if loads == [] then None else if loads[0].Some? then loads[0] else FirstLoaded(loads[1..])
  }

  /**
   * Initialise-once: whatever a run of init calls loads, at most one call reports `true`; exactly one does
   * when the slot started empty and some load succeeded; that call's tokenizer is the one the slot keeps,
   * which is the first one loaded; and a slot that started occupied is never replaced.
   */
  lemma {:induction false} InitializeOnce<T>(slot: Option<T>, loads: seq<Option<T>>)
    ensures |InitAll(slot, loads).1| == |loads|
    ensures Installs(InitAll(slot, loads).1) <= 1
    ensures Installs(InitAll(slot, loads).1) == 1 <==> slot.None? && FirstLoaded(loads).Some?
    ensures slot.Some? ==> InitAll(slot, loads).0 == slot
    ensures slot.None? ==> InitAll(slot, loads).0 == FirstLoaded(loads)
    ensures forall i :: 0 <= i < |loads| && InitAll(slot, loads).1[i] ==> loads[i] == InitAll(slot, loads).0
    decreases |loads|
  {
    if loads != [] {
      var step := InitStep(slot, loads[0]);
      InitializeOnce(step.0, loads[1..]);
      var rest := InitAll(step.0, loads[1..]);
      var oks := [step.1] + rest.1;
      assert InitAll(slot, loads) == (rest.0, oks);
      assert oks[1..] == rest.1;
      if step.1 {
        assert step.0.Some?;
        assert Installs(rest.1) == 0;
      }
      forall i | 0 <= i < |loads| && oks[i]
        ensures loads[i] == rest.0
      {
        if i > 0 {
          assert rest.1[i - 1];
        }
      }
    }
  }
}
