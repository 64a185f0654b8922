/**
 * Measuring the page indicator: the size its dots want (dots, strokes and
 * the gaps between them along the main axis, one dot across), the view's
 * own padding around them, and the parent's measure spec deciding the
 * final size, which is written back to the indicator.
 */
module MeasureController {
  import opened Common
  import opened PageIndicator

  /**
   * A measure spec packs a mode into the top two bits of an `int` and a size
   * into the other thirty; the modes below are those two bits.
   */
  const MODE_SHIFT: nat := 0x4000_0000
  const UNSPECIFIED: nat := 0
  const EXACTLY: nat := 1
  const AT_MOST: nat := 2

  /** The 32 bits of an `int` read without sign. */
  function Unsigned(spec: int): (u: nat)
    requires IsInt32(spec)
    ensures u < 0x1_0000_0000
  {
    if spec < 0 then spec + 0x1_0000_0000 else spec
  }

  /** `MeasureSpec.getMode`: the top two bits. */
  function SpecMode(spec: int): (mode: nat)
    requires IsInt32(spec)
    ensures mode < 4
  {
    Unsigned(spec) / MODE_SHIFT
  }

  /** `MeasureSpec.getSize`: the low thirty bits, never negative. */
  function SpecSize(spec: int): (size: nat)
    requires IsInt32(spec)
    ensures size < MODE_SHIFT
  {
    Unsigned(spec) % MODE_SHIFT
  }

  /** `MeasureSpec.makeMeasureSpec`: the mode's bits above the size's, as an `int`. */
  function MakeSpec(mode: nat, size: nat): (spec: int)
    requires mode < 4 && size < MODE_SHIFT
    ensures IsInt32(spec)
  {
    var u := mode * MODE_SHIFT + size;
    if u < 0x8000_0000 then u else u - 0x1_0000_0000
  }

  /** A spec built from a mode and a size reads back as that mode and size. */
  lemma SpecRoundTrip(mode: nat, size: nat)
    requires mode < 4 && size < MODE_SHIFT
    ensures SpecMode(MakeSpec(mode, size)) == mode
    ensures SpecSize(MakeSpec(mode, size)) == size
  {
    var u := mode * MODE_SHIFT + size;
    assert Unsigned(MakeSpec(mode, size)) == u;
    DivModUnique(u, MODE_SHIFT, mode, size);
  }

  datatype Size = Size(width: int, height: int)

  /**
   * The room the dots take: along the main axis each dot's diameter and two
   * strokes plus a gap between neighbours, across it one diameter and one
   * stroke; nothing without dots; the drop animation doubles the cross axis.
   */
  function DotsSize(count: int, radius: int, stroke: int, padding: int, orientation: Orientation, animation: AnimationType): Size
  {
    var diameter := radius * 2;
    var dots :=
      if count != 0 then
        var main := diameter * count + stroke * 2 * count + padding * (count - 1);
        var cross := diameter + stroke;
        if orientation == HORIZONTAL then Size(main, cross) else Size(cross, main)
      else Size(0, 0);
    if animation != DROP then dots
    else if orientation == HORIZONTAL then Size(dots.width, dots.height * 2)
    else Size(dots.width * 2, dots.height)
  }

  /** The indicator's wanted size: the dots plus the view padding on each side. */
  function DesiredSize(count: int, radius: int, stroke: int, padding: int, orientation: Orientation, animation: AnimationType,
                       paddingLeft: int, paddingTop: int, paddingRight: int, paddingBottom: int): (r: Size)
    ensures count == 0 ==> r == Size(paddingLeft + paddingRight, paddingTop + paddingBottom)
  {
    var dots := DotsSize(count, radius, stroke, padding, orientation, animation);
    Size(dots.width + paddingLeft + paddingRight, dots.height + paddingTop + paddingBottom)
  }

  /** The size one axis gets from its spec: the spec's size when exact, at most it when bounded, else the wanted size; never negative. */
  function Resolve(spec: int, desired: int): (r: int)
    requires IsInt32(spec)
    ensures r >= 0
    ensures SpecMode(spec) == AT_MOST ==> r <= SpecSize(spec)
    ensures SpecMode(spec) != EXACTLY && desired >= 0 && (SpecMode(spec) != AT_MOST || desired <= SpecSize(spec)) ==> r == desired
  {
    var mode := SpecMode(spec);
    var size := if mode == EXACTLY then SpecSize(spec)
      else if mode == AT_MOST then Min(desired, SpecSize(spec))
      else desired;
    if size < 0 then 0 else size
  }

  /** An indicator without dots wants only its padding. */
  lemma NoDotsWantPadding(radius: int, stroke: int, padding: int, orientation: Orientation, animation: AnimationType,
                          pl: int, pt: int, pr: int, pb: int)
    ensures DesiredSize(0, radius, stroke, padding, orientation, animation, pl, pt, pr, pb) == Size(pl + pr, pt + pb)
  {
  }

  /** A horizontal row of dots without the drop animation: the width is the dots, strokes and gaps, the height one dot. */
  lemma HorizontalRow(count: int, radius: int, stroke: int, padding: int, animation: AnimationType)
    requires count != 0 && animation != DROP
    ensures DotsSize(count, radius, stroke, padding, HORIZONTAL, animation)
      == Size(2 * radius * count + 2 * stroke * count + padding * (count - 1), 2 * radius + stroke)
  {
  }

  /** A vertical indicator is the horizontal one turned a quarter: width and height swap. */
  lemma VerticalSwapsAxes(count: int, radius: int, stroke: int, padding: int, animation: AnimationType)
    ensures var h := DotsSize(count, radius, stroke, padding, HORIZONTAL, animation);
      DotsSize(count, radius, stroke, padding, VERTICAL, animation) == Size(h.height, h.width)
  {
  }

  /** The drop animation doubles the cross axis and leaves the main axis as it is. */
  lemma DropDoublesCrossAxis(count: int, radius: int, stroke: int, padding: int)
    ensures var plain := DotsSize(count, radius, stroke, padding, HORIZONTAL, NONE);
      DotsSize(count, radius, stroke, padding, HORIZONTAL, DROP) == Size(plain.width, 2 * plain.height)
    ensures var plain := DotsSize(count, radius, stroke, padding, VERTICAL, NONE);
      DotsSize(count, radius, stroke, padding, VERTICAL, DROP) == Size(2 * plain.width, plain.height)
  {
  }

  /** An exact spec gives its size; a bounded one never more than its size or the wanted size; any other the wanted size; never negative. */
  lemma ResolveSpec(spec: int, desired: int)
    requires IsInt32(spec)
    ensures Resolve(spec, desired) >= 0
    ensures SpecMode(spec) == EXACTLY ==> Resolve(spec, desired) == SpecSize(spec)
    ensures SpecMode(spec) == AT_MOST ==>
      (Resolve(spec, desired) <= SpecSize(spec) && (desired >= 0 ==> Resolve(spec, desired) == Min(desired, SpecSize(spec))))
    ensures SpecMode(spec) != EXACTLY && SpecMode(spec) != AT_MOST && desired >= 0 ==> Resolve(spec, desired) == desired
  {
  }

  /** The first half of `measureViewSize`: the size the indicator wants, read from its fields. */
  method DesiredOf(indicator: Indicator) returns (desiredWidth: int, desiredHeight: int)
    ensures Size(desiredWidth, desiredHeight) == DesiredSize(indicator.count, indicator.radius, indicator.stroke,
      indicator.padding, indicator.orientation, indicator.animationType, indicator.paddingLeft,
      indicator.paddingTop, indicator.paddingRight, indicator.paddingBottom)
  {
    var count, radius, stroke := indicator.count, indicator.radius, indicator.stroke;
    var padding := indicator.padding;
    var circleDiameterPx := radius * 2;
    desiredWidth, desiredHeight := 0, 0;
    var orientation := indicator.orientation;
    if count != 0 {
      var w := circleDiameterPx * count + stroke * 2 * count + padding * (count - 1);
      var h := circleDiameterPx + stroke;
      if orientation == HORIZONTAL {
        desiredWidth, desiredHeight := w, h;
      } else {
        desiredWidth, desiredHeight := h, w;
      }
    }
    if indicator.animationType == DROP {
      if orientation == HORIZONTAL {
        desiredHeight := desiredHeight * 2;
      } else {
        desiredWidth := desiredWidth * 2;
      }
    }
    desiredWidth := desiredWidth + indicator.paddingLeft + indicator.paddingRight;
    desiredHeight := desiredHeight + indicator.paddingTop + indicator.paddingBottom;
  }

  /**
   * `measureViewSize`: the indicator's size for the parent's width and
   * height specs, written to the indicator and returned.
   */
  method MeasureViewSize(indicator: Indicator, widthSpec: int, heightSpec: int) returns (width: int, height: int)
    requires IsInt32(widthSpec) && IsInt32(heightSpec)
    modifies indicator`width, indicator`height
    ensures var desired := DesiredSize(indicator.count, indicator.radius, indicator.stroke, indicator.padding,
                                       indicator.orientation, indicator.animationType, indicator.paddingLeft,
                                       indicator.paddingTop, indicator.paddingRight, indicator.paddingBottom);
      width == Resolve(widthSpec, desired.width) && height == Resolve(heightSpec, desired.height)
    ensures indicator.width == width && indicator.height == height
  {
    var widthMode, widthSize := SpecMode(widthSpec), SpecSize(widthSpec);
    var heightMode, heightSize := SpecMode(heightSpec), SpecSize(heightSpec);
    var desiredWidth, desiredHeight := DesiredOf(indicator);
    if widthMode == EXACTLY {
      width := widthSize;
    } else if widthMode == AT_MOST {
      width := Min(desiredWidth, widthSize);
    } else {
      width := desiredWidth;
    }
    if heightMode == EXACTLY {
      height := heightSize;
    } else if heightMode == AT_MOST {
      height := Min(desiredHeight, heightSize);
    } else {
      height := desiredHeight;
    }
    if width < 0 {
      width := 0;
    }
    if height < 0 {
      height := 0;
    }
    indicator.width := width;
    indicator.height := height;
  }
}
