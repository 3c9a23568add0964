/** An ordered chain of checks in which the first failing check decides the outcome. */
module Rules {
  import opened Results

  /** The position of the first rule in `rules` that `holds` rejects, if there is one. */
  function FirstFailure<R>(rules: seq<R>, holds: R -> bool): (r: Option<nat>)
    ensures r.None? <==> forall i :: 0 <= i < |rules| ==> holds(rules[i])
    ensures r.Some? ==> r.value < |rules| && !holds(rules[r.value])
    ensures r.Some? ==> forall j :: 0 <= j < r.value ==> holds(rules[j])
  {
    if rules == [] then None
    else if !holds(rules[0]) then Some(0)
    else match FirstFailure(rules[1..], holds)
      case None => None
      case Some(i) => Some(i + 1)
  }
}
