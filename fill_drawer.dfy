/**
 * Drawing a dot during the fill animation: a ring of the indicator's size
 * and, inside it, a ring whose radius and stroke the animation drives.
 */
module FillDrawer {
  import opened PageIndicator

  /** The colour, radius and stroke of a dot's inner ring. */
  datatype Ring = Ring(color: int, radius: int, stroke: int)

  /**
   * The inner ring of a dot: with an interactive animation the selecting
   * dot takes the value's ring and otherwise the selected dot the reverse
   * ring; without, the selected dot takes the value's ring and otherwise
   * the last selected dot the reverse ring; any other dot the unselected
   * colour with the indicator's radius and stroke.
   */
  function DotRing(interactive: bool, position: int, selected: int, selecting: int, lastSelected: int,
                   forward: Ring, reverse: Ring, default: Ring): (r: Ring)
    ensures r == forward || r == reverse || r == default
    ensures position == (if interactive then selecting else selected) ==> r == forward
  {
    var entering := if interactive then selecting else selected;
    var leaving := if interactive then selected else lastSelected;
    if position == entering then forward
    else if position == leaving then reverse
    else default
  }

  /**
   * `draw`: nothing for a value that is not a fill value; else two rings in
   * the chosen colour at the dot's place, the first with the indicator's
   * radius and stroke, the second with the chosen radius and stroke.
   */
  function Draw(indicator: Indicator, value: AnimationValue, position: int, x: int, y: int): (circles: seq<Circle>)
    reads indicator
    ensures !value.FillValue? ==> circles == []
    ensures value.FillValue? ==>
      (|circles| == 2 &&
       var ring := DotRing(indicator.interactiveAnimation, position, indicator.selectedPosition,
                           indicator.selectingPosition, indicator.lastSelectedPosition,
                           Ring(value.color, value.radius, value.stroke),
                           Ring(value.colorReverse, value.radiusReverse, value.strokeReverse),
                           Ring(indicator.unselectedColor, indicator.radius, indicator.stroke));
       circles[0] == Circle(x as real, y as real, indicator.radius as real, ring.color, Stroke(indicator.stroke))
       && circles[1] == Circle(x as real, y as real, ring.radius as real, ring.color, Stroke(ring.stroke)))
  {
    if !value.FillValue? then []
    else
      var ring := DotRing(indicator.interactiveAnimation, position, indicator.selectedPosition,
                          indicator.selectingPosition, indicator.lastSelectedPosition,
                          Ring(value.color, value.radius, value.stroke),
                          Ring(value.colorReverse, value.radiusReverse, value.strokeReverse),
                          Ring(indicator.unselectedColor, indicator.radius, indicator.stroke));
      [Circle(x as real, y as real, indicator.radius as real, ring.color, Stroke(indicator.stroke)),
       Circle(x as real, y as real, ring.radius as real, ring.color, Stroke(ring.stroke))]
  }
}
