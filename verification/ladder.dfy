/**
 Ceiling lookup in a ladder of sizes: the "first entry not less than the
 target" search that `Array.prototype.find` performs with the predicate
 `gauge => gauge >= target`. Nothing here depends on the particular ladder;
 the lemmas that need the ladder sorted say so in their requires.
 */
module Ladder {
  import opened Wrappers

  /** Every entry is strictly smaller than every later entry. */
  ghost predicate StrictlyAscending(ladder: seq<real>) {
    forall i, j :: 0 <= i < j < |ladder| ==> ladder[i] < ladder[j]
  }

  /** The index of the first entry that is at least `target`, scanning from
      the front, or None when no entry is (`Array.prototype.findIndex`
      returning -1). */
  function FindIndex(ladder: seq<real>, target: real): (r: Option<nat>)
    ensures r.Some? ==> r.value < |ladder| && ladder[r.value] >= target
    ensures r.Some? ==> forall j :: 0 <= j < r.value ==> ladder[j] < target
    ensures r.None? ==> forall j :: 0 <= j < |ladder| ==> ladder[j] < target
    decreases |ladder|
  {
    if |ladder| == 0 then None
    else if ladder[0] >= target then Some(0)
    else
      match FindIndex(ladder[1..], target)
      case None => None
      case Some(i) => Some(i + 1)
  }

  /** The first entry that is at least `target`, or None (`undefined`) when
      every entry is smaller. */
  function Find(ladder: seq<real>, target: real): (r: Option<real>)
    ensures r.Some? ==> r.value in ladder && r.value >= target
    ensures r.None? <==> forall g :: g in ladder ==> g < target
  {
    match FindIndex(ladder, target)
    case None => None
    case Some(i) => Some(ladder[i])
  }

  /** On an ascending ladder the first adequate entry is also the smallest
      adequate one: Find is a true ceiling. */
  lemma FindIsLeastAdequate(ladder: seq<real>, target: real)
    requires StrictlyAscending(ladder)
    ensures Find(ladder, target).Some? ==>
              forall g :: g in ladder && g >= target ==> Find(ladder, target).value <= g
  {
    match FindIndex(ladder, target)
    case None =>
    case Some(i) =>
      forall g | g in ladder && g >= target
        ensures ladder[i] <= g
      {
        var j :| 0 <= j < |ladder| && ladder[j] == g;
        assert i <= j;
      }
  }

  /** A larger target never selects a smaller entry, and whenever the larger
      target is served the smaller one is too. */
  lemma FindMonotone(ladder: seq<real>, t1: real, t2: real)
    requires StrictlyAscending(ladder)
    requires t1 <= t2
    ensures Find(ladder, t2).Some? ==>
              Find(ladder, t1).Some? && Find(ladder, t1).value <= Find(ladder, t2).value
  {
    if Find(ladder, t2).Some? {
      var g := Find(ladder, t2).value;
      assert g in ladder && g >= t1;
      FindIsLeastAdequate(ladder, t1);
    }
  }

  /** On a non-empty ascending ladder the search fails exactly when the
      target lies above the last entry. */
  lemma FindFailsIffAboveTop(ladder: seq<real>, target: real)
    requires StrictlyAscending(ladder)
    requires |ladder| > 0
    ensures Find(ladder, target).None? <==> target > ladder[|ladder| - 1]
  {
    var top := ladder[|ladder| - 1];
    if target > top {
      forall g | g in ladder
        ensures g < target
      {
        var j :| 0 <= j < |ladder| && ladder[j] == g;
        assert j == |ladder| - 1 || ladder[j] < top;
      }
    } else {
      assert top in ladder && top >= target;
    }
  }
}
