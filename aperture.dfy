/**
 * The tolerance comparator `comparison_parameters_with_aperture`: two parameter vectors differ
 * meaningfully when some parameter moved by strictly more than its aperture.
 */
module Aperture {

  function Abs(x: real): real
  {
    if x < 0.0 then -x else x
  }

  /** The absolute change of each parameter, from `previous` to `current` (`dpv`). */
  function Deltas(previous: seq<real>, current: seq<real>): (d: seq<real>)
    requires |previous| == |current|
    ensures |d| == |current|
  {
    seq(|current|, i requires 0 <= i < |current| => Abs(current[i] - previous[i]))
  }

  /** `map(le, deltas, aperture)`: whether each change stays within its aperture. */
  function WithinApertures(deltas: seq<real>, aperture: seq<real>): (w: seq<bool>)
    requires |deltas| == |aperture|
    ensures |w| == |deltas|
  {
    seq(|deltas|, i requires 0 <= i < |deltas| => deltas[i] <= aperture[i])
  }

  /**
   * True when `False in map(le, dpv, aperture)`: some parameter's change is not within its
   * aperture. A change exactly equal to the aperture is within it.
   */
  function Exceeds(previous: seq<real>, current: seq<real>, aperture: seq<real>): (r: bool)
    requires |previous| == |current| == |aperture|
    ensures r <==> exists i :: 0 <= i < |aperture| && Abs(current[i] - previous[i]) > aperture[i]
  {
    var within := WithinApertures(Deltas(previous, current), aperture);
    assert forall i :: 0 <= i < |within| ==> within[i] == (Abs(current[i] - previous[i]) <= aperture[i]);
    false in within
  }

  /** A change of exactly the aperture, in every parameter, is no change at all. */
  lemma ChangeEqualToApertureIsNotExceedance(previous: seq<real>, current: seq<real>, aperture: seq<real>)
    requires |previous| == |current| == |aperture|
    requires forall i :: 0 <= i < |aperture| ==> Abs(current[i] - previous[i]) == aperture[i]
    ensures !Exceeds(previous, current, aperture)
  {
  }

  /** The comparison looks only at the size of each change, not at its direction. */
  lemma ExceedsSymmetric(previous: seq<real>, current: seq<real>, aperture: seq<real>)
    requires |previous| == |current| == |aperture|
    ensures Exceeds(previous, current, aperture) == Exceeds(current, previous, aperture)
  {
    forall i | 0 <= i < |aperture|
      ensures Abs(current[i] - previous[i]) == Abs(previous[i] - current[i])
    {
    }
  }

  /** Widening the apertures can only remove exceedances. */
  lemma WiderApertureExceedsLess(previous: seq<real>, current: seq<real>, narrow: seq<real>, wide: seq<real>)
    requires |previous| == |current| == |narrow| == |wide|
    requires forall i :: 0 <= i < |narrow| ==> narrow[i] <= wide[i]
    requires Exceeds(previous, current, wide)
    ensures Exceeds(previous, current, narrow)
  {
    var i :| 0 <= i < |wide| && Abs(current[i] - previous[i]) > wide[i];
    assert Abs(current[i] - previous[i]) > narrow[i];
  }

  /** With every aperture zero, any difference at all is an exceedance, and only a difference. */
  lemma ZeroApertureDetectsEveryChange(previous: seq<real>, current: seq<real>, aperture: seq<real>)
    requires |previous| == |current| == |aperture|
    requires forall i :: 0 <= i < |aperture| ==> aperture[i] == 0.0
    ensures Exceeds(previous, current, aperture) <==> previous != current
  {
    if previous != current {
      var i :| 0 <= i < |current| && previous[i] != current[i];
      assert Abs(current[i] - previous[i]) > aperture[i];
    }
  }

  /** The boundary case of a single parameter: a change of 1 against an aperture of 1. */
  lemma ExactToleranceExample()
    ensures !Exceeds([0.0], [1.0], [1.0])
    ensures Exceeds([0.0], [1.5], [1.0])
  {
    var previous, current, aperture := [0.0], [1.5], [1.0];
    assert Abs(current[0] - previous[0]) > aperture[0];
  }
}
