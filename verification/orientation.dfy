/**
 * Panel orientation and the stacking axis of the manager's box. The
 * orientation is carried as the integer the "orient" property holds; the
 * enumeration codes follow AwnOrientation (TOP, RIGHT, BOTTOM, LEFT in that
 * order; awn-defines.h is not part of this model).
 */
module Orientation {
  import opened Util

  const ORIENT_TOP: int := 0
  const ORIENT_RIGHT: int := 1
  const ORIENT_BOTTOM: int := 2
  const ORIENT_LEFT: int := 3

  /** The box stacks its children left to right or top to bottom. */
  datatype Axis = Horizontal | Vertical

  /**
   * The axis the switch in awn_applet_manager_set_orient chooses: horizontal
   * for a panel at the top or bottom, vertical for one at the left or right,
   * and None for the default branch, which asserts it is never reached.
   */
  function AxisOf(orient: int): Option<Axis>
  {
    if orient == ORIENT_TOP || orient == ORIENT_BOTTOM then Some(Horizontal)
    else if orient == ORIENT_RIGHT || orient == ORIENT_LEFT then Some(Vertical)
    else None
  }

  /**
   * Every value the "orient" property admits (0 to 3) reaches a case of the
   * switch, and no other value does: the unreachable default is exactly the
   * out-of-range input.
   */
  lemma AxisDefinedOnPropertyRange(orient: int)
    ensures AxisOf(orient).Some? <==> 0 <= orient <= 3
  {
  }

  /** A panel at the top or bottom stacks its applets horizontally; one at the left or right, vertically. */
  lemma OppositeEdgesShareAxis()
    ensures AxisOf(ORIENT_TOP) == AxisOf(ORIENT_BOTTOM) == Some(Horizontal)
    ensures AxisOf(ORIENT_LEFT) == AxisOf(ORIENT_RIGHT) == Some(Vertical)
  {
  }
}
