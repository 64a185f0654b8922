/**
 * Reading the page indicator's layout attributes into the indicator: the
 * dot count and starting position, the colours, the animation settings and
 * the sizes, each clamped to a usable value.
 */
module AttributeController {
  import opened Common
  import opened PageIndicator

  /**
   * The indicator's "no count given" marker and the count used instead.
   * The indicator class is not part of this model; these are the values of
   * the page-indicator library the package is taken from.
   */
  const COUNT_NONE: int := -1
  const DEFAULT_COUNT: int := 3
  /** The default animation time in milliseconds. */
  const DEFAULT_ANIMATION_TIME: int := 350
  /** The view id meaning "no view". */
  const NO_ID: int := -1
  /** The scale animation's default, smallest and largest scale factors, from the same library. */
  const DEFAULT_SCALE_FACTOR: real := 0.7
  const MIN_SCALE_FACTOR: real := 0.3
  const MAX_SCALE_FACTOR: real := 1.0

  /**
   * The layout's attributes: an absent `Option` is an attribute the layout
   * leaves unset. The colours and dimensions are the values read with their
   * defaults applied (those defaults come from colour parsing and the
   * screen density).
   */
  datatype StyledAttributes = StyledAttributes(
    viewPager: Option<int>, autoVisibility: Option<bool>, dynamicCount: Option<bool>,
    count: Option<int>, select: Option<int>,
    unselectedColor: int, selectedColor: int,
    interactiveAnimation: Option<bool>, animationDuration: Option<int>,
    animationType: Option<int>, rtlMode: Option<int>,
    orientation: Option<int>, radius: real, padding: real, scaleFactor: Option<real>, stroke: real)

  /** An attribute's value, or the default the read names. */
  function OrElse<T>(o: Option<T>, default: T): T
  {
    if o.Some? then o.value else default
  }

  /** The count: the given one, or the default count for the "none" marker, which never survives. */
  function CountOf(raw: int): (count: int)
    ensures count != COUNT_NONE
    ensures raw != COUNT_NONE ==> count == raw
  {
    if raw == COUNT_NONE then DEFAULT_COUNT else raw
  }

  /** The starting position: never negative, and never past the last dot when there are dots. */
  function ClampPosition(position: int, count: int): (p: int)
    ensures p >= 0 && (count > 0 ==> p <= count - 1)
    ensures position < 0 ==> p == 0
    ensures count > 0 && position > count - 1 ==> p == count - 1
    ensures position >= 0 && (count <= 0 || position <= count - 1) ==> p == position
  {
    if position < 0 then 0
    else if count > 0 && position > count - 1 then count - 1
    else position
  }

  /** The animation duration: a negative one is taken as none. */
  function DurationOf(raw: int): (duration: int)
    ensures duration >= 0
    ensures raw >= 0 ==> duration == raw
    ensures raw < 0 ==> duration == 0
  {
    if raw < 0 then 0 else raw
  }

  /** `getAnimationType`: the type with that position, and no animation for any other index. */
  function GetAnimationType(index: int): (t: AnimationType)
    ensures 0 <= index <= 9 ==> AnimationOrdinal(t) == index
    ensures !(0 <= index <= 9) ==> t == NONE
  {
    match index
    case 0 => NONE
    case 1 => COLOR
    case 2 => SCALE
    case 3 => WORM
    case 4 => SLIDE
    case 5 => FILL
    case 6 => THIN_WORM
    case 7 => DROP
    case 8 => SWAP
    case 9 => SCALE_DOWN
    case _ => NONE
  }

  /** Every animation type is read back from its own position. */
  lemma AnimationTypeRoundTrip(t: AnimationType)
    ensures GetAnimationType(AnimationOrdinal(t)) == t
  {
  }

  /** `getRtlMode`: 0 is on, 1 is off, any other index automatic. */
  function GetRtlMode(index: int): (m: RtlMode)
    ensures 0 <= index <= 2 ==> RtlOrdinal(m) == index
    ensures !(0 <= index <= 2) ==> m == Auto
  {
    match index
    case 0 => On
    case 1 => Off
    case 2 => Auto
    case _ => Auto
  }

  /** Every mode is read back from its own position. */
  lemma RtlModeRoundTrip(m: RtlMode)
    ensures GetRtlMode(RtlOrdinal(m)) == m
  {
  }

  /** The orientation: index 0 is horizontal, any other vertical. */
  function OrientationOf(index: int): (o: Orientation)
    ensures o == HORIZONTAL <==> index == 0
  {
    if index == 0 then HORIZONTAL else VERTICAL
  }

  /** A size that may not be negative: radius and padding. */
  function NonNegative(x: int): (r: int)
    ensures r >= 0 && (x >= 0 ==> r == x)
  {
    if x < 0 then 0 else x
  }

  /** The scale factor: clamped into [MIN_SCALE_FACTOR, MAX_SCALE_FACTOR], and kept when it lies there. */
  function ScaleFactorOf(raw: real): (f: real)
    ensures MIN_SCALE_FACTOR <= f <= MAX_SCALE_FACTOR
    ensures MIN_SCALE_FACTOR <= raw <= MAX_SCALE_FACTOR ==> f == raw
    ensures raw < MIN_SCALE_FACTOR ==> f == MIN_SCALE_FACTOR
    ensures raw > MAX_SCALE_FACTOR ==> f == MAX_SCALE_FACTOR
  {
    if raw < MIN_SCALE_FACTOR then MIN_SCALE_FACTOR
    else if raw > MAX_SCALE_FACTOR then MAX_SCALE_FACTOR
    else raw
  }

  /** The stroke: at most the radius, and none at all unless the animation is the fill animation. */
  function StrokeOf(raw: int, radius: int, animation: AnimationType): (stroke: int)
    ensures stroke <= radius || (animation != FILL && radius < 0)
    ensures animation != FILL ==> stroke == 0
    ensures animation == FILL ==> stroke == Min(raw, radius)
  {
    var capped := if raw > radius then radius else raw;
    if animation != FILL then 0 else capped
  }

  /** `initCountAttribute`: the view pager, visibility flags, count, and the starting position for all three position fields. */
  method InitCountAttribute(indicator: Indicator, attrs: StyledAttributes)
    modifies indicator`viewPagerId, indicator`autoVisibility, indicator`dynamicCount, indicator`count
    modifies indicator`selectedPosition, indicator`selectingPosition, indicator`lastSelectedPosition
    ensures indicator.viewPagerId == OrElse(attrs.viewPager, NO_ID)
    ensures indicator.autoVisibility == OrElse(attrs.autoVisibility, true)
    ensures indicator.dynamicCount == OrElse(attrs.dynamicCount, false)
    ensures indicator.count == CountOf(OrElse(attrs.count, COUNT_NONE))
    ensures indicator.selectedPosition == ClampPosition(OrElse(attrs.select, 0), indicator.count)
    ensures indicator.selectingPosition == indicator.selectedPosition
    ensures indicator.lastSelectedPosition == indicator.selectedPosition
  {
    var viewPagerId := OrElse(attrs.viewPager, NO_ID);
    var autoVisibility := OrElse(attrs.autoVisibility, true);
    var dynamicCount := OrElse(attrs.dynamicCount, false);
    var count := OrElse(attrs.count, COUNT_NONE);
    if count == COUNT_NONE {
      count := DEFAULT_COUNT;
    }
    var position := OrElse(attrs.select, 0);
    if position < 0 {
      position := 0;
    } else if count > 0 && position > count - 1 {
      position := count - 1;
    }
    indicator.viewPagerId := viewPagerId;
    indicator.autoVisibility := autoVisibility;
    indicator.dynamicCount := dynamicCount;
    indicator.count := count;
    indicator.selectedPosition := position;
    indicator.selectingPosition := position;
    indicator.lastSelectedPosition := position;
  }

  /** `initColorAttribute`: the two colours. */
  method InitColorAttribute(indicator: Indicator, attrs: StyledAttributes)
    modifies indicator`unselectedColor, indicator`selectedColor
    ensures indicator.unselectedColor == attrs.unselectedColor && indicator.selectedColor == attrs.selectedColor
  {
    indicator.unselectedColor := attrs.unselectedColor;
    indicator.selectedColor := attrs.selectedColor;
  }

  /** `initAnimationAttribute`: duration (never negative), interactivity, animation type and right-to-left mode. */
  method InitAnimationAttribute(indicator: Indicator, attrs: StyledAttributes)
    modifies indicator`animationDuration, indicator`interactiveAnimation, indicator`animationType, indicator`rtlMode
    ensures indicator.animationDuration == DurationOf(OrElse(attrs.animationDuration, DEFAULT_ANIMATION_TIME))
    ensures indicator.interactiveAnimation == OrElse(attrs.interactiveAnimation, false)
    ensures indicator.animationType == GetAnimationType(OrElse(attrs.animationType, AnimationOrdinal(NONE)))
    ensures indicator.rtlMode == GetRtlMode(OrElse(attrs.rtlMode, RtlOrdinal(Off)))
  {
    var interactiveAnimation := OrElse(attrs.interactiveAnimation, false);
    var animationDuration := OrElse(attrs.animationDuration, DEFAULT_ANIMATION_TIME);
    if animationDuration < 0 {
      animationDuration := 0;
    }
    var animationType := GetAnimationType(OrElse(attrs.animationType, AnimationOrdinal(NONE)));
    var rtlMode := GetRtlMode(OrElse(attrs.rtlMode, RtlOrdinal(Off)));
    indicator.animationDuration := animationDuration;
    indicator.interactiveAnimation := interactiveAnimation;
    indicator.animationType := animationType;
    indicator.rtlMode := rtlMode;
  }

  /**
   * `initSizeAttribute`: orientation, radius and padding (never negative),
   * the scale factor clamped into its range, and the stroke (capped at the radius, and none unless
   * the indicator's animation is the fill animation).
   */
  method InitSizeAttribute(indicator: Indicator, attrs: StyledAttributes)
    modifies indicator`radius, indicator`orientation, indicator`padding, indicator`scaleFactor, indicator`stroke
    ensures indicator.orientation == OrientationOf(OrElse(attrs.orientation, 0))
    ensures indicator.radius == NonNegative(JavaIntOf(attrs.radius))
    ensures indicator.padding == NonNegative(JavaIntOf(attrs.padding))
    ensures indicator.scaleFactor == ScaleFactorOf(OrElse(attrs.scaleFactor, DEFAULT_SCALE_FACTOR))
    ensures indicator.stroke == StrokeOf(JavaIntOf(attrs.stroke), indicator.radius, indicator.animationType)
  {
    var orientationIndex := OrElse(attrs.orientation, 0);
    var orientation;
    if orientationIndex == 0 {
      orientation := HORIZONTAL;
    } else {
      orientation := VERTICAL;
    }
    var radius := JavaIntOf(attrs.radius);
    if radius < 0 {
      radius := 0;
    }
    var padding := JavaIntOf(attrs.padding);
    if padding < 0 {
      padding := 0;
    }
    var scaleFactor := OrElse(attrs.scaleFactor, DEFAULT_SCALE_FACTOR);
    if scaleFactor < MIN_SCALE_FACTOR {
      scaleFactor := MIN_SCALE_FACTOR;
    } else if scaleFactor > MAX_SCALE_FACTOR {
      scaleFactor := MAX_SCALE_FACTOR;
    }
    var stroke := JavaIntOf(attrs.stroke);
    if stroke > radius {
      stroke := radius;
    }
    if indicator.animationType != FILL {
      stroke := 0;
    }
    indicator.radius := radius;
    indicator.orientation := orientation;
    indicator.padding := padding;
    indicator.scaleFactor := scaleFactor;
    indicator.stroke := stroke;
  }

  /**
   * `init`: count, colours, animation, then sizes, so the stroke follows the
   * animation type just read. Each field takes its defaulted or clamped
   * attribute; the indicator's outer paddings and measured size are not
   * touched. Afterwards the starting position is a dot of
   * the indicator when it has dots, and the stroke lies within the radius.
   */
  method Init(indicator: Indicator, attrs: StyledAttributes)
    modifies indicator`viewPagerId, indicator`autoVisibility, indicator`dynamicCount, indicator`count
    modifies indicator`selectedPosition, indicator`selectingPosition, indicator`lastSelectedPosition
    modifies indicator`unselectedColor, indicator`selectedColor
    modifies indicator`animationDuration, indicator`interactiveAnimation, indicator`animationType, indicator`rtlMode
    modifies indicator`radius, indicator`orientation, indicator`padding, indicator`scaleFactor, indicator`stroke
    ensures indicator.viewPagerId == OrElse(attrs.viewPager, NO_ID)
    ensures indicator.autoVisibility == OrElse(attrs.autoVisibility, true)
    ensures indicator.dynamicCount == OrElse(attrs.dynamicCount, false)
    ensures indicator.count == CountOf(OrElse(attrs.count, COUNT_NONE))
    ensures indicator.selectedPosition == ClampPosition(OrElse(attrs.select, 0), indicator.count)
    ensures indicator.selectingPosition == indicator.selectedPosition == indicator.lastSelectedPosition
    ensures indicator.unselectedColor == attrs.unselectedColor && indicator.selectedColor == attrs.selectedColor
    ensures indicator.animationDuration == DurationOf(OrElse(attrs.animationDuration, DEFAULT_ANIMATION_TIME))
    ensures indicator.interactiveAnimation == OrElse(attrs.interactiveAnimation, false)
    ensures indicator.animationType == GetAnimationType(OrElse(attrs.animationType, AnimationOrdinal(NONE)))
    ensures indicator.rtlMode == GetRtlMode(OrElse(attrs.rtlMode, RtlOrdinal(Off)))
    ensures indicator.orientation == OrientationOf(OrElse(attrs.orientation, 0))
    ensures indicator.radius == NonNegative(JavaIntOf(attrs.radius))
    ensures indicator.padding == NonNegative(JavaIntOf(attrs.padding))
    ensures indicator.scaleFactor == ScaleFactorOf(OrElse(attrs.scaleFactor, DEFAULT_SCALE_FACTOR))
    ensures indicator.stroke == StrokeOf(JavaIntOf(attrs.stroke), indicator.radius, indicator.animationType)
    ensures indicator.count != COUNT_NONE
    ensures indicator.selectedPosition >= 0 && (indicator.count > 0 ==> indicator.selectedPosition < indicator.count)
    ensures indicator.animationDuration >= 0 && indicator.radius >= 0 && indicator.padding >= 0
    ensures indicator.stroke <= indicator.radius
    ensures indicator.animationType != FILL ==> indicator.stroke == 0
    ensures MIN_SCALE_FACTOR <= indicator.scaleFactor <= MAX_SCALE_FACTOR
  {
    InitCountAttribute(indicator, attrs);
    InitColorAttribute(indicator, attrs);
    InitAnimationAttribute(indicator, attrs);
    InitSizeAttribute(indicator, attrs);
  }
}
