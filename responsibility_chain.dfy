/** The generator chain of responsibility: the first generator whose validity context accepts an interaction. */
module ResponsibilityChain {
  import opened Wrappers
  import opened EVGCore

  /** FindGenerator: the index of the first accepting generator, or None when none accepts. */
  function FindGenerator(accepts: (Generator, Interaction) -> bool, gens: seq<Generator>, i: Interaction): (r: Option<nat>)
    ensures r.Some? ==> r.value < |gens| && accepts(gens[r.value], i)
    ensures r.Some? ==> forall k :: 0 <= k < r.value ==> !accepts(gens[k], i)
    ensures r.None? <==> forall k :: 0 <= k < |gens| ==> !accepts(gens[k], i)
    decreases |gens|
  {
    if |gens| == 0 then None
    else if accepts(gens[0], i) then Some(0)
    else
      match FindGenerator(accepts, gens[1..], i)
      case None => None
      case Some(k) => Some(k + 1)
  }
}
