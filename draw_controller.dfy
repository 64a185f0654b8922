/**
 * Drawing the page indicator and taking its clicks: every dot is drawn once,
 * the dots the current selection involves are drawn by the animation's
 * drawer while an animation value is present, and a finger lifted over a
 * dot reports that dot to the click listener.
 */
module DrawController {
  import opened Common
  import opened PageIndicator
  import BasicDrawer
  import ColorDrawer
  import SwapDrawer
  import FillDrawer

  /** The action code of a lifted finger. */
  const ACTION_UP: int := 1

  /**
   * A touch: its action code and the dot under it (negative when none).
   * Finding the dot from the touch's coordinates is not part of this model.
   */
  datatype MotionEvent = MotionEvent(action: int, position: int)

  /** How one dot is drawn: by the basic drawer, or by the drawer of an animation with its value. */
  datatype DrawCall =
    | BasicCall(position: int, x: int, y: int, isSelectedItem: bool)
    | AnimatedCall(position: int, x: int, y: int, animation: AnimationType, value: AnimationValue)

  /**
   * A dot the selection involves: without an interactive animation the
   * selected and the last selected dot, with one the selected and the
   * selecting dot.
   */
  predicate IsSelectedItem(interactive: bool, position: int, selected: int, selecting: int, lastSelected: int)
    ensures position == selected ==> IsSelectedItem(interactive, position, selected, selecting, lastSelected)
  {
    (!interactive && (position == selected || position == lastSelected))
    || (interactive && (position == selected || position == selecting))
  }

  /** The selected dot is always involved, and besides it only the dot the mode names. */
  lemma SelectedItems(interactive: bool, position: int, selected: int, selecting: int, lastSelected: int)
    ensures IsSelectedItem(interactive, selected, selected, selecting, lastSelected)
    ensures IsSelectedItem(interactive, position, selected, selecting, lastSelected) <==>
      position == selected || position == (if interactive then selecting else lastSelected)
  {
  }

  /** A dot the colour animation draws takes the value's colour or its reverse, never the fallback colour. */
  lemma AnimatedDotTakesValueColor(indicator: Indicator, value: AnimationValue, position: int)
    requires IsColorValue(value)
    requires IsSelectedItem(indicator.interactiveAnimation, position, indicator.selectedPosition,
                            indicator.selectingPosition, indicator.lastSelectedPosition)
    ensures ColorDrawer.DotColor(indicator.interactiveAnimation, position, indicator.selectedPosition,
                                 indicator.selectingPosition, indicator.lastSelectedPosition,
                                 value.color, value.colorReverse, indicator.selectedColor) in {value.color, value.colorReverse}
  {
  }

  /** A dot the swap animation draws either moves in, selected, or moves out, unselected. */
  lemma AnimatedDotIsSwapped(indicator: Indicator, value: AnimationValue, position: int)
    requires value.SwapValue?
    requires IsSelectedItem(indicator.interactiveAnimation, position, indicator.selectedPosition,
                            indicator.selectingPosition, indicator.lastSelectedPosition)
    ensures var p := SwapDrawer.DotPlacement(indicator.interactiveAnimation, position, indicator.selectedPosition,
                                             indicator.selectingPosition, indicator.lastSelectedPosition,
                                             value.coordinate, value.coordinateReverse,
                                             indicator.selectedColor, indicator.unselectedColor);
      p == SwapDrawer.Placement(value.coordinate, indicator.selectedColor)
      || p == SwapDrawer.Placement(value.coordinateReverse, indicator.unselectedColor)
  {
  }

  /** A dot the fill animation draws takes the value's ring or its reverse, never the indicator's default ring. */
  lemma AnimatedDotIsFilled(indicator: Indicator, value: AnimationValue, position: int)
    requires value.FillValue?
    requires IsSelectedItem(indicator.interactiveAnimation, position, indicator.selectedPosition,
                            indicator.selectingPosition, indicator.lastSelectedPosition)
    ensures var forward := FillDrawer.Ring(value.color, value.radius, value.stroke);
      var reverse := FillDrawer.Ring(value.colorReverse, value.radiusReverse, value.strokeReverse);
      FillDrawer.DotRing(indicator.interactiveAnimation, position, indicator.selectedPosition,
                         indicator.selectingPosition, indicator.lastSelectedPosition, forward, reverse,
                         FillDrawer.Ring(indicator.unselectedColor, indicator.radius, indicator.stroke)) in {forward, reverse}
  {
  }

  class DrawController {
    const indicator: Indicator
    /** The current animation value, if any. */
    var value: Option<AnimationValue>
    /** Whether a click listener is set. */
    var hasListener: bool
    /** The positions handed to the click listener so far, in order. */
    var clicks: seq<int>

    constructor (indicator: Indicator)
      ensures this.indicator == indicator && value == None && !hasListener && clicks == []
    {
      this.indicator := indicator;
      value := None;
      hasListener := false;
      clicks := [];
    }

    /** `updateValue`. */
    method UpdateValue(value: Option<AnimationValue>)
      modifies this`value
      ensures this.value == value
    {
      this.value := value;
    }

    /** `setClickListener`: set or clear the listener. */
    method SetClickListener(present: bool)
      modifies this`hasListener
      ensures hasListener == present
    {
      hasListener := present;
    }

    /** `touch`: only a lifted finger reaches the listener, and only over a dot and with a listener set. */
    method Touch(event: Option<MotionEvent>)
      modifies this`clicks
      ensures event.Some? && event.value.action == ACTION_UP && hasListener && event.value.position >= 0 ==>
        clicks == old(clicks) + [event.value.position]
      ensures !(event.Some? && event.value.action == ACTION_UP && hasListener && event.value.position >= 0) ==>
        clicks == old(clicks)
    {
      if event.None? {
        return;
      }
      if event.value.action == ACTION_UP {
        OnIndicatorTouched(event.value.position);
      }
    }

    /** `onIndicatorTouched`: report the dot under the finger, if any, to the listener, if set. */
    method OnIndicatorTouched(position: int)
      modifies this`clicks
      ensures hasListener && position >= 0 ==> clicks == old(clicks) + [position]
      ensures !(hasListener && position >= 0) ==> clicks == old(clicks)
    {
      if hasListener {
        if position >= 0 {
          clicks := clicks + [position];
        }
      }
    }

    /**
     * `drawIndicator`: a dot the selection involves is drawn by the
     * animation's drawer when a value is present, except that no animation
     * draws it basic as selected; every other dot is drawn basic.
     */
    method DrawIndicator(position: int, x: int, y: int) returns (call: DrawCall)
      ensures call.position == position && call.x == x && call.y == y
      ensures var selected := IsSelectedItem(indicator.interactiveAnimation, position, indicator.selectedPosition,
                                             indicator.selectingPosition, indicator.lastSelectedPosition);
        (call.AnimatedCall? <==> value.Some? && selected && indicator.animationType != NONE)
        && (call.AnimatedCall? ==> call.animation == indicator.animationType && call.value == value.value)
        && (call.BasicCall? ==> call.isSelectedItem == selected)
    {
      var interactiveAnimation := indicator.interactiveAnimation;
      var selectedPosition := indicator.selectedPosition;
      var selectingPosition := indicator.selectingPosition;
      var lastSelectedPosition := indicator.lastSelectedPosition;
      var selectedItem := !interactiveAnimation && (position == selectedPosition || position == lastSelectedPosition);
      var selectingItem := interactiveAnimation && (position == selectedPosition || position == selectingPosition);
      var isSelectedItem := selectedItem || selectingItem;
      if value.Some? && isSelectedItem {
        if indicator.animationType == NONE {
          call := BasicCall(position, x, y, true);
        } else {
          call := AnimatedCall(position, x, y, indicator.animationType, value.value);
        }
      } else {
        call := BasicCall(position, x, y, isSelectedItem);
      }
    }

    /**
     * `draw`: one draw call per dot, for positions 0 to count - 1 in order,
     * each at the coordinates the layout gives it (`xOf`, `yOf`).
     */
    method Draw(xOf: int -> int, yOf: int -> int) returns (calls: seq<DrawCall>)
      ensures |calls| == if indicator.count > 0 then indicator.count else 0
      ensures forall p :: 0 <= p < |calls| ==> calls[p].position == p && calls[p].x == xOf(p) && calls[p].y == yOf(p)
      ensures forall p :: 0 <= p < |calls| ==>
        (calls[p].AnimatedCall? <==>
           (value.Some? && indicator.animationType != NONE
            && IsSelectedItem(indicator.interactiveAnimation, p, indicator.selectedPosition,
                              indicator.selectingPosition, indicator.lastSelectedPosition)))
    {
      var count := indicator.count;
      calls := [];
      var position := 0;
      while position < count
        invariant 0 <= position <= (if count > 0 then count else 0) && |calls| == position
        invariant forall p :: 0 <= p < position ==> calls[p].position == p && calls[p].x == xOf(p) && calls[p].y == yOf(p)
        invariant forall p :: 0 <= p < position ==>
          (calls[p].AnimatedCall? <==>
             (value.Some? && indicator.animationType != NONE
              && IsSelectedItem(indicator.interactiveAnimation, p, indicator.selectedPosition,
                                indicator.selectingPosition, indicator.lastSelectedPosition)))
      {
        var call := DrawIndicator(position, xOf(position), yOf(position));
        calls := calls + [call];
        position := position + 1;
      }
    }
  }
}
