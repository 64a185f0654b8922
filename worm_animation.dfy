/**
 * The worm animation of the page indicator: a rectangle as wide as one dot
 * stretches from the selected dot to the next one with its leading edge,
 * then catches up with its trailing edge. Two edge animators play one after
 * the other, each for half the animation's duration, and a progress value
 * hands the elapsed time to them in order.
 */
module WormAnimation {
  import opened Common

  /** The animation time when none is set, in milliseconds. */
  const DEFAULT_ANIMATION_TIME: int := 350

  /** An edge of the worm's rectangle. */
  datatype Edge = Start | End

  /** Where an edge lies when the worm covers the dot centred at `coordinate`. */
  function EdgeAt(edge: Edge, coordinate: int, radius: int): int
  {
    if edge == Start then coordinate - radius else coordinate + radius
  }

  /**
   * The edge an edge animator moves: moving right, the straight animator
   * moves the end edge and the reverse one the start edge; moving left, the
   * other way round.
   */
  function EdgeMoved(isRightSide: bool, isReverse: bool): (edge: Edge)
    ensures edge == End <==> isRightSide != isReverse
  {
    if isRightSide then (if !isReverse then End else Start)
    else (if !isReverse then Start else End)
  }

  /** The values the two edge animators run between. */
  datatype RectValues = RectValues(fromX: int, toX: int, reverseFromX: int, reverseToX: int)

  /** `createRectValues`: both animators travel the distance between the dots, and they start a diameter apart. */
  function CreateRectValues(coordinateStart: int, coordinateEnd: int, radius: int, isRightSide: bool): (r: RectValues)
    ensures r.toX - r.fromX == coordinateEnd - coordinateStart == r.reverseToX - r.reverseFromX
    ensures r.fromX - r.reverseFromX == (if isRightSide then 2 * radius else -2 * radius)
  {
    if isRightSide then
      RectValues(coordinateStart + radius, coordinateEnd + radius, coordinateStart - radius, coordinateEnd - radius)
    else
      RectValues(coordinateStart - radius, coordinateEnd - radius, coordinateStart + radius, coordinateEnd + radius)
  }

  /**
   * The worm travels from dot to dot: each animator starts its edge where
   * the rectangle around the start dot has it and ends it where the
   * rectangle around the end dot has it, and the two animators move
   * different edges.
   */
  lemma EdgesTravelDotToDot(coordinateStart: int, coordinateEnd: int, radius: int, isRightSide: bool)
    ensures var rect := CreateRectValues(coordinateStart, coordinateEnd, radius, isRightSide);
      var straight := EdgeMoved(isRightSide, false);
      var reverse := EdgeMoved(isRightSide, true);
      straight != reverse
      && rect.fromX == EdgeAt(straight, coordinateStart, radius) && rect.toX == EdgeAt(straight, coordinateEnd, radius)
      && rect.reverseFromX == EdgeAt(reverse, coordinateStart, radius)
      && rect.reverseToX == EdgeAt(reverse, coordinateEnd, radius)
  {
  }

  /** Moving the other way swaps which edge leads: the straight and reverse values trade places. */
  lemma SidesMirror(coordinateStart: int, coordinateEnd: int, radius: int)
    ensures var right := CreateRectValues(coordinateStart, coordinateEnd, radius, true);
      var left := CreateRectValues(coordinateStart, coordinateEnd, radius, false);
      right == RectValues(left.reverseFromX, left.reverseToX, left.fromX, left.toX)
  {
  }

  /** One child animator of the set: it runs an edge from `from` to `to` over `duration`, and is at `playTime`. */
  datatype EdgeAnimator = EdgeAnimator(from: int, to: int, duration: int, isReverse: bool, playTime: int)

  /** The two animators `with` builds: straight, then reverse, each for `duration`, neither started. */
  function WormAnimators(rect: RectValues, duration: int): seq<EdgeAnimator>
  {
    [EdgeAnimator(rect.fromX, rect.toX, duration, false, 0),
     EdgeAnimator(rect.reverseFromX, rect.reverseToX, duration, true, 0)]
  }

  /** The animators' durations, in play order. */
  function Durations(animators: seq<EdgeAnimator>): (ds: seq<int>)
    ensures |ds| == |animators| && forall i :: 0 <= i < |ds| ==> ds[i] == animators[i].duration
  {
    seq(|animators|, i requires 0 <= i < |animators| => animators[i].duration)
  }

  /**
   * The play times `progress` hands out: each animator in turn gets what is
   * left of the elapsed time, up to its own duration.
   */
  function Distribute(remaining: int, durations: seq<int>): (times: seq<int>)
    ensures |times| == |durations|
    ensures forall i :: 0 <= i < |times| ==> times[i] <= durations[i]
    decreases |durations|
  {
    if durations == [] then []
    else
      var t := Min(remaining, durations[0]);
      [t] + Distribute(remaining - t, durations[1..])
  }

  /** The elapsed time still to hand out when animator `i`'s turn comes. */
  function Left(remaining: int, durations: seq<int>, i: int): int
    requires 0 <= i <= |durations|
    decreases i
  {
    if i == 0 then remaining
    else Left(remaining - Min(remaining, durations[0]), durations[1..], i - 1)
  }

  /** Animator `i` gets what is left for it, up to its duration. */
  lemma {:induction false} DistributeAt(remaining: int, durations: seq<int>, i: int)
    requires 0 <= i < |durations|
    ensures Distribute(remaining, durations)[i] == Min(Left(remaining, durations, i), durations[i])
    decreases i
  {
    var t := Min(remaining, durations[0]);
    assert Distribute(remaining, durations) == [t] + Distribute(remaining - t, durations[1..]);
    if i > 0 {
      DistributeAt(remaining - t, durations[1..], i - 1);
      assert durations[1..][i - 1] == durations[i];
    }
  }

  /** What is left after animator `i` is what was left for it minus its share. */
  lemma {:induction false} LeftStep(remaining: int, durations: seq<int>, i: int)
    requires 0 <= i < |durations|
    ensures Left(remaining, durations, i + 1)
      == Left(remaining, durations, i) - Min(Left(remaining, durations, i), durations[i])
    decreases i
  {
    if i > 0 {
      var t := Min(remaining, durations[0]);
      LeftStep(remaining - t, durations[1..], i - 1);
      assert durations[1..][i - 1] == durations[i];
    }
  }

  function Sum(s: seq<int>): int
  {
    if s == [] then 0 else s[0] + Sum(s[1..])
  }

  predicate AllNonNegative(s: seq<int>)
  {
    forall i :: 0 <= i < |s| ==> s[i] >= 0
  }

  lemma TailNonNegative(s: seq<int>)
    requires s != [] && AllNonNegative(s)
    ensures AllNonNegative(s[1..])
  {
    forall i | 0 <= i < |s[1..]|
      ensures s[1..][i] >= 0
    {
      assert s[1..][i] == s[i + 1];
    }
  }

  lemma {:induction false} SumNonNegative(s: seq<int>)
    requires AllNonNegative(s)
    ensures Sum(s) >= 0
    decreases |s|
  {
    if s != [] {
      TailNonNegative(s);
      SumNonNegative(s[1..]);
    }
  }

  /** With non-negative durations and elapsed time, the animators together play exactly the elapsed time, capped at the total duration. */
  lemma {:induction false} DistributeSum(remaining: int, durations: seq<int>)
    requires remaining >= 0 && AllNonNegative(durations)
    ensures AllNonNegative(Distribute(remaining, durations))
    ensures Sum(Distribute(remaining, durations)) == Min(remaining, Sum(durations))
    decreases |durations|
  {
    if durations != [] {
      var t := Min(remaining, durations[0]);
      TailNonNegative(durations);
      DistributeSum(remaining - t, durations[1..]);
      SumNonNegative(durations[1..]);
      var rest := Distribute(remaining - t, durations[1..]);
      assert Distribute(remaining, durations) == [t] + rest;
      assert ([t] + rest)[1..] == rest;
    }
  }

  /** Whatever the durations and the elapsed time, the animators together never play more than the elapsed time. */
  lemma {:induction false} DistributeNeverExceeds(remaining: int, durations: seq<int>)
    ensures Sum(Distribute(remaining, durations)) <= remaining || durations == []
    decreases |durations|
  {
    if durations != [] {
      var t := Min(remaining, durations[0]);
      var rest := Distribute(remaining - t, durations[1..]);
      assert Distribute(remaining, durations) == [t] + rest;
      assert ([t] + rest)[1..] == rest;
      DistributeNeverExceeds(remaining - t, durations[1..]);
    }
  }

  /** Once the elapsed time is used up, every later animator stays at its start. */
  lemma {:induction false} DistributeZero(durations: seq<int>)
    requires AllNonNegative(durations)
    ensures forall i :: 0 <= i < |durations| ==> Distribute(0, durations)[i] == 0
    decreases |durations|
  {
    if durations != [] {
      TailNonNegative(durations);
      DistributeZero(durations[1..]);
      assert Distribute(0, durations) == [0] + Distribute(0, durations[1..]);
    }
  }

  /** An animator only moves when some elapsed time is left for it. */
  lemma PositiveNeedsTime(remaining: int, durations: seq<int>, k: int)
    requires remaining >= 0 && AllNonNegative(durations) && 0 <= k < |durations|
    ensures Distribute(remaining, durations)[k] > 0 ==> remaining > 0
  {
    if remaining == 0 {
      DistributeZero(durations);
    }
  }

  /** Every animator that has moved comes after animators that have all played to their end. */
  predicate PlaysInOrder(times: seq<int>, durations: seq<int>)
    requires |times| == |durations|
  {
    forall i, j :: 0 <= i < j < |times| && times[j] > 0 ==> times[i] == durations[i]
  }

  /**
   * The animators play in order: with non-negative durations, one only
   * moves once every animator before it has played to its end.
   */
  lemma {:induction false} DistributeInOrder(remaining: int, durations: seq<int>)
    requires remaining >= 0 && AllNonNegative(durations)
    ensures PlaysInOrder(Distribute(remaining, durations), durations)
    decreases |durations|
  {
    if durations != [] {
      var t := Min(remaining, durations[0]);
      TailNonNegative(durations);
      DistributeInOrder(remaining - t, durations[1..]);
      var rest := Distribute(remaining - t, durations[1..]);
      assert Distribute(remaining, durations) == [t] + rest;
      if t != durations[0] {
        assert remaining - t == 0;
        DistributeZero(durations[1..]);
      }
      ConsPlaysInOrder(t, rest, durations);
    }
  }

  /** Putting an animator in front keeps the order when it has played to its end or nothing after it has moved. */
  lemma ConsPlaysInOrder(t: int, rest: seq<int>, durations: seq<int>)
    requires |durations| == |rest| + 1 && PlaysInOrder(rest, durations[1..])
    requires t == durations[0] || forall k :: 0 <= k < |rest| ==> rest[k] <= 0
    ensures PlaysInOrder([t] + rest, durations)
  {
    var times := [t] + rest;
    forall i, j | 0 <= i < j < |times| && times[j] > 0
      ensures times[i] == durations[i]
    {
      assert times[j] == rest[j - 1];
      if i > 0 {
        assert times[i] == rest[i - 1] && durations[i] == durations[1..][i - 1];
      }
    }
  }

  /** `(long) (progress * animationDuration)`: the elapsed time a progress fraction stands for. */
  function ProgressDuration(progress: real, animationDuration: int): int
  {
    JavaIntOf(progress * animationDuration as real)
  }

  class WormAnimation {
    var coordinateStart: int
    var coordinateEnd: int
    var radius: int
    var isRightSide: bool
    var rectLeftEdge: int
    var rectRightEdge: int
    var animationDuration: int
    /** The worm's rectangle as the animation value hands it to the listener. */
    var rectStart: int
    var rectEnd: int
    /** The animator set's children, played one after the other. */
    var animators: seq<EdgeAnimator>
    /** Whether an update listener was given. */
    const hasListener: bool
    /** The rectangles handed to the listener so far, in order. */
    var published: seq<(int, int)>

    /** A new animation: every coordinate zero, the default duration, and an animator set without children. */
    constructor (hasListener: bool)
      ensures this.hasListener == hasListener
      ensures coordinateStart == 0 && coordinateEnd == 0 && radius == 0 && !isRightSide
      ensures rectLeftEdge == 0 && rectRightEdge == 0 && rectStart == 0 && rectEnd == 0
      ensures animationDuration == DEFAULT_ANIMATION_TIME && animators == [] && published == []
    {
      this.hasListener := hasListener;
      coordinateStart, coordinateEnd, radius, isRightSide := 0, 0, 0, false;
      rectLeftEdge, rectRightEdge, rectStart, rectEnd := 0, 0, 0, 0;
      animationDuration := DEFAULT_ANIMATION_TIME;
      animators := [];
      published := [];
    }

    /** `hasChanges`: whether any of the four arguments differs from what the animation was built for. */
    predicate HasChanges(coordinateStart: int, coordinateEnd: int, radius: int, isRightSide: bool)
      reads this
      ensures HasChanges(coordinateStart, coordinateEnd, radius, isRightSide) <==>
        (this.coordinateStart, this.coordinateEnd, this.radius, this.isRightSide)
          != (coordinateStart, coordinateEnd, radius, isRightSide)
    {
      if this.coordinateStart != coordinateStart then true
      else if this.coordinateEnd != coordinateEnd then true
      else if this.radius != radius then true
      else if this.isRightSide != isRightSide then true
      else false
    }

    /** `duration`: the new duration, used the next time the animators are built. */
    method SetDuration(duration: int)
      modifies this`animationDuration
      ensures animationDuration == duration
    {
      animationDuration := duration;
    }

    /**
     * `with`: for new coordinates, remember them, put the worm on the start
     * dot and build the straight and reverse animators, each taking half the
     * duration; for the same coordinates, change nothing. Either way the
     * animation is then built for these coordinates.
     */
    method With(coordinateStart: int, coordinateEnd: int, radius: int, isRightSide: bool)
      modifies this
      ensures !HasChanges(coordinateStart, coordinateEnd, radius, isRightSide)
      ensures !old(HasChanges(coordinateStart, coordinateEnd, radius, isRightSide)) ==> unchanged(this)
      ensures old(HasChanges(coordinateStart, coordinateEnd, radius, isRightSide)) ==>
        rectLeftEdge == rectStart == EdgeAt(Start, coordinateStart, radius)
        && rectRightEdge == rectEnd == EdgeAt(End, coordinateStart, radius)
        && animators == WormAnimators(CreateRectValues(coordinateStart, coordinateEnd, radius, isRightSide),
                                      JavaDiv(animationDuration, 2))
        && animationDuration == old(animationDuration) && published == old(published)
    {
      if HasChanges(coordinateStart, coordinateEnd, radius, isRightSide) {
        this.coordinateStart := coordinateStart;
        this.coordinateEnd := coordinateEnd;
        this.radius := radius;
        this.isRightSide := isRightSide;
        rectLeftEdge := coordinateStart - radius;
        rectRightEdge := coordinateStart + radius;
        rectStart := rectLeftEdge;
        rectEnd := rectRightEdge;
        var rect := CreateRectValues(coordinateStart, coordinateEnd, radius, isRightSide);
        var duration := JavaDiv(animationDuration, 2);
        animators := [EdgeAnimator(rect.fromX, rect.toX, duration, false, 0),
                      EdgeAnimator(rect.reverseFromX, rect.reverseToX, duration, true, 0)];
      }
    }

    /**
     * `progress`: the elapsed time the fraction stands for is handed to the
     * animators in play order, each taking at most its duration.
     */
    method Progress(progress: real)
      modifies this`animators
      ensures |animators| == |old(animators)|
      ensures forall i :: 0 <= i < |animators| ==>
        animators[i] == old(animators)[i].(playTime :=
          Distribute(ProgressDuration(progress, animationDuration), Durations(old(animators)))[i])
    {
      var progressDuration := ProgressDuration(progress, animationDuration);
      ghost var total := progressDuration;
      ghost var durations := Durations(animators);
      ghost var times := Distribute(total, durations);
      var i := 0;
      while i < |animators|
        invariant 0 <= i <= |animators| == |durations| == |times|
        invariant forall j :: 0 <= j < |animators| ==> animators[j].duration == durations[j]
        invariant forall j :: 0 <= j < |animators| ==>
          animators[j] == old(animators)[j].(playTime := if j < i then times[j] else old(animators)[j].playTime)
        invariant progressDuration == Left(total, durations, i)
      {
        var animator := animators[i];
        var duration := animator.duration;
        var setDuration := progressDuration;
        if setDuration > duration {
          setDuration := duration;
        }
        DistributeAt(total, durations, i);
        LeftStep(total, durations, i);
        animators := animators[i := animator.(playTime := setDuration)];
        progressDuration := progressDuration - setDuration;
        i := i + 1;
      }
    }

    /**
     * `onAnimateUpdated`: an animator's new value moves the edge that
     * animator moves, and the rectangle goes to the listener, if any.
     */
    method OnAnimateUpdated(isReverse: bool, rectEdge: int)
      modifies this`rectStart, this`rectEnd, this`published
      ensures EdgeMoved(isRightSide, isReverse) == End ==> rectEnd == rectEdge && rectStart == old(rectStart)
      ensures EdgeMoved(isRightSide, isReverse) == Start ==> rectStart == rectEdge && rectEnd == old(rectEnd)
      ensures published == old(published) + (if hasListener then [(rectStart, rectEnd)] else [])
    {
      if isRightSide {
        if !isReverse {
          rectEnd := rectEdge;
        } else {
          rectStart := rectEdge;
        }
      } else {
        if !isReverse {
          rectStart := rectEdge;
        } else {
          rectEnd := rectEdge;
        }
      }
      if hasListener {
        published := published + [(rectStart, rectEnd)];
      }
    }
  }
}
