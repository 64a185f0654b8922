/**
 * Drawing a dot during the swap animation: the dot moving in takes the
 * animated coordinate and the selected colour, the dot moving out the
 * reverse coordinate and the unselected colour.
 */
module SwapDrawer {
  import opened PageIndicator

  /** Where along the main axis a dot is drawn, and in which colour. */
  datatype Placement = Placement(coordinate: int, color: int)

  /**
   * The placement of a dot: with an interactive animation the selecting dot
   * moves in and otherwise the selected dot moves out; without, the last
   * selected dot moves in and otherwise the selected dot moves out; any
   * other dot stays at the value's coordinate, unselected.
   */
  function DotPlacement(interactive: bool, position: int, selected: int, selecting: int, lastSelected: int,
                        coordinate: int, coordinateReverse: int, selectedColor: int, unselectedColor: int): (r: Placement)
    ensures r.coordinate == coordinate || r.coordinate == coordinateReverse
    ensures r.color == selectedColor <==> position == (if interactive then selecting else lastSelected) || selectedColor == unselectedColor
  {
    var incoming := if interactive then selecting else lastSelected;
    if position == incoming then Placement(coordinate, selectedColor)
    else if position == selected then Placement(coordinateReverse, unselectedColor)
    else Placement(coordinate, unselectedColor)
  }

  /**
   * `draw`: nothing for a value that is not a swap value, else one filled
   * circle of the indicator's radius, moved along the main axis: at
   * (coordinate, y) when horizontal, (x, coordinate) when vertical.
   */
  function Draw(indicator: Indicator, value: AnimationValue, position: int, x: int, y: int): (circles: seq<Circle>)
    reads indicator
    ensures !value.SwapValue? ==> circles == []
    ensures value.SwapValue? ==>
      (|circles| == 1 &&
       var p := DotPlacement(indicator.interactiveAnimation, position, indicator.selectedPosition, indicator.selectingPosition,
                             indicator.lastSelectedPosition, value.coordinate, value.coordinateReverse,
                             indicator.selectedColor, indicator.unselectedColor);
       circles[0].color == p.color && circles[0].radius == indicator.radius as real && circles[0].paint == Fill
       && (indicator.orientation == HORIZONTAL ==> circles[0].x == p.coordinate as real && circles[0].y == y as real)
       && (indicator.orientation == VERTICAL ==> circles[0].x == x as real && circles[0].y == p.coordinate as real))
  {
    if !value.SwapValue? then []
    else
      var p := DotPlacement(indicator.interactiveAnimation, position, indicator.selectedPosition,
                            indicator.selectingPosition, indicator.lastSelectedPosition,
                            value.coordinate, value.coordinateReverse, indicator.selectedColor, indicator.unselectedColor);
      if indicator.orientation == HORIZONTAL then
        [Circle(p.coordinate as real, y as real, indicator.radius as real, p.color, Fill)]
      else
        [Circle(x as real, p.coordinate as real, indicator.radius as real, p.color, Fill)]
  }
}
