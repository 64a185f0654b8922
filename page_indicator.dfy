/**
 * The state a page indicator's controllers and drawers share: the kinds of
 * animation, orientation and right-to-left handling, the animation values a
 * drawer reads, the circles it draws, and the indicator object itself with
 * the fields the controllers read and write.
 */
module PageIndicator {
  /** The indicator's animations, in declaration order. */
  datatype AnimationType = NONE | COLOR | SCALE | WORM | SLIDE | FILL | THIN_WORM | DROP | SWAP | SCALE_DOWN

  /** The position of an animation type in its declaration. */
  function AnimationOrdinal(t: AnimationType): nat
  {
    match t
    case NONE => 0
    case COLOR => 1
    case SCALE => 2
    case WORM => 3
    case SLIDE => 4
    case FILL => 5
    case THIN_WORM => 6
    case DROP => 7
    case SWAP => 8
    case SCALE_DOWN => 9
  }

  datatype Orientation = HORIZONTAL | VERTICAL

  /** Right-to-left handling, in declaration order. */
  datatype RtlMode = On | Off | Auto

  function RtlOrdinal(m: RtlMode): nat
  {
    match m
    case On => 0
    case Off => 1
    case Auto => 2
  }

  /**
   * The value an animation hands to the drawers. A fill value is also a
   * colour value (the fill value class extends the colour value class).
   */
  datatype AnimationValue =
    | ColorValue(color: int, colorReverse: int)
    | FillValue(color: int, colorReverse: int, radius: int, radiusReverse: int, stroke: int, strokeReverse: int)
    | SwapValue(coordinate: int, coordinateReverse: int)
    | WormValue(rectStart: int, rectEnd: int)
    | OtherValue

  /** `value instanceof ColorAnimationValue`. */
  predicate IsColorValue(v: AnimationValue)
  {
    v.ColorValue? || v.FillValue?
  }

  /** How a circle is painted: filled, or as a ring of the given stroke width. */
  datatype Paint = Fill | Stroke(width: int)

  /** One `drawCircle` call. */
  datatype Circle = Circle(x: real, y: real, radius: real, color: int, paint: Paint)

  /** The indicator's attributes and measured size. */
  class Indicator {
    var count: int
    var radius: int
    var stroke: int
    var padding: int
    var paddingLeft: int
    var paddingTop: int
    var paddingRight: int
    var paddingBottom: int
    var width: int
    var height: int
    var scaleFactor: real
    var selectedColor: int
    var unselectedColor: int
    var selectedPosition: int
    var selectingPosition: int
    var lastSelectedPosition: int
    var interactiveAnimation: bool
    var animationDuration: int
    var animationType: AnimationType
    var orientation: Orientation
    var rtlMode: RtlMode
    var viewPagerId: int
    var autoVisibility: bool
    var dynamicCount: bool
  }
}
