/**
 * Drawing one dot without an animation value: its colour says whether it is
 * the selected dot, the fill animation rings the other dots, and the scale
 * animations resize the unselected (scale) or selected (scale-down) dots.
 */
module BasicDrawer {
  import opened PageIndicator

  /** The radius a dot is drawn with. */
  function BasicRadius(radius: int, scaleFactor: real, animation: AnimationType, isSelectedItem: bool): (r: real)
    ensures (animation == SCALE && !isSelectedItem) || (animation == SCALE_DOWN && isSelectedItem) ==> r == radius as real * scaleFactor
    ensures !((animation == SCALE && !isSelectedItem) || (animation == SCALE_DOWN && isSelectedItem)) ==> r == radius as real
  {
    if animation == SCALE && !isSelectedItem then radius as real * scaleFactor
    else if animation == SCALE_DOWN && isSelectedItem then radius as real * scaleFactor
    else radius as real
  }

  /**
   * `draw`: one circle at the dot's place, in the selected colour exactly
   * for the selected position, as a ring of the indicator's stroke exactly
   * when the fill animation draws a position other than the selected one.
   */
  function Draw(indicator: Indicator, position: int, isSelectedItem: bool, x: int, y: int): (c: Circle)
    reads indicator
    ensures c.x == x as real && c.y == y as real
    ensures c.radius == BasicRadius(indicator.radius, indicator.scaleFactor, indicator.animationType, isSelectedItem)
    ensures position == indicator.selectedPosition ==> c.color == indicator.selectedColor
    ensures position != indicator.selectedPosition ==> c.color == indicator.unselectedColor
    ensures c.paint.Stroke? <==> indicator.animationType == FILL && position != indicator.selectedPosition
    ensures c.paint.Stroke? ==> c.paint.width == indicator.stroke
  {
    var radius := BasicRadius(indicator.radius, indicator.scaleFactor, indicator.animationType, isSelectedItem);
    var color := if position == indicator.selectedPosition then indicator.selectedColor else indicator.unselectedColor;
    var paint := if indicator.animationType == FILL && position != indicator.selectedPosition then Stroke(indicator.stroke) else Fill;
    Circle(x as real, y as real, radius, color, paint)
  }
}
