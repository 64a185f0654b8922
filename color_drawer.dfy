/**
 * Drawing a dot during the colour animation: the dot being moved to takes
 * the animated colour and the dot being left takes the reverse colour.
 */
module ColorDrawer {
  import opened PageIndicator

  /**
   * The colour of a dot: with an interactive animation the selecting dot
   * takes the value's colour and otherwise the selected dot the reverse
   * colour; without, the selected dot takes the value's colour and
   * otherwise the last selected dot the reverse colour; any other dot the
   * indicator's selected colour.
   */
  function DotColor(interactive: bool, position: int, selected: int, selecting: int, lastSelected: int,
                    color: int, colorReverse: int, fallback: int): (r: int)
    ensures r == color || r == colorReverse || r == fallback
    ensures position == (if interactive then selecting else selected) ==> r == color
  {
    if interactive then
      if position == selecting then color
      else if position == selected then colorReverse
      else fallback
    else
      if position == selected then color
      else if position == lastSelected then colorReverse
      else fallback
  }

  /** `draw`: nothing for a value that is not a colour value, else one filled circle of the indicator's radius at the dot's place. */
  function Draw(indicator: Indicator, value: AnimationValue, position: int, x: int, y: int): (circles: seq<Circle>)
    reads indicator
    ensures !IsColorValue(value) ==> circles == []
    ensures IsColorValue(value) ==>
      (|circles| == 1
       && circles[0] == Circle(x as real, y as real, indicator.radius as real,
            DotColor(indicator.interactiveAnimation, position, indicator.selectedPosition, indicator.selectingPosition,
                     indicator.lastSelectedPosition, value.color, value.colorReverse, indicator.selectedColor), Fill))
  {
    if !IsColorValue(value) then []
    else
      var color := DotColor(indicator.interactiveAnimation, position, indicator.selectedPosition,
                            indicator.selectingPosition, indicator.lastSelectedPosition,
                            value.color, value.colorReverse, indicator.selectedColor);
      [Circle(x as real, y as real, indicator.radius as real, color, Fill)]
  }
}
