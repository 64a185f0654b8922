/**
 * The page-transition resources: the saved transition type picks the four
 * animators a page change uses, for the left page coming in and going out
 * and the right page coming in and going out.
 */
module TransitionManager {
  import opened Common

  /** The transition types, by their saved value. */
  const TRANSITION_DEFAULT: int := 0
  const TRANSITION_PERSPECTIVE: int := 1
  const TRANSITION_SQUEEZE: int := 2
  const TRANSITION_CUBE: int := 3
  const TRANSITION_FLIP_OVER: int := 4
  const TRANSITION_ROTATE: int := 5
  const TRANSITION_CASCADE: int := 6
  const TRANSITION_WINDMILL: int := 7

  /** The name each transition type's animators carry, in the order of the saved values. */
  const TRANSITION_NAMES: seq<string> :=
    ["default", "perspective", "squeeze", "cube", "flip_over", "rotate", "cascade", "windmill"]

  /** The four slots of the table, in slot order. */
  const SLOT_NAMES: seq<string> := ["left_in", "left_out", "right_in", "right_out"]

  /** An animator resource; a slot never written holds no resource (the id 0). */
  datatype AnimatorRes = NoResource | Animator(name: string)

  /** A saved value the table knows. */
  predicate IsTransition(transition: int)
  {
    TRANSITION_DEFAULT <= transition <= TRANSITION_WINDMILL
  }

  /** The name of an animator resource: the transition's name, then the slot's. */
  function ResourceName(transitionName: string, slotName: string): string
  {
    "transition_" + transitionName + "_" + slotName
  }

  /** The four animators a known transition type uses, in slot order. */
  function Table(transition: int): (table: seq<AnimatorRes>)
    requires IsTransition(transition)
    ensures |table| == 4
    ensures forall k :: 0 <= k < 4 ==> table[k].Animator?
  {
    var name := TRANSITION_NAMES[transition];
    seq(4, k requires 0 <= k < 4 => Animator(ResourceName(name, SLOT_NAMES[k])))
  }

  /** Names built around a common prefix and suffix are equal only when their middles are. */
  lemma CancelAround(prefix: string, a: string, b: string, suffix: string)
    requires prefix + a + suffix == prefix + b + suffix
    ensures a == b
  {
    var s := prefix + a + suffix;
    assert |a| == |b|;
    assert a == s[|prefix|..|prefix| + |a|];
    assert b == (prefix + b + suffix)[|prefix|..|prefix| + |b|];
  }

  /** Names built from a common prefix are equal only when the rest is. */
  lemma CancelPrefix(prefix: string, a: string, b: string)
    requires prefix + a == prefix + b
    ensures a == b
  {
    assert a == (prefix + a)[|prefix|..];
    assert b == (prefix + b)[|prefix|..];
  }

  lemma TransitionNamesDistinct()
    ensures forall i, j :: 0 <= i < |TRANSITION_NAMES| && 0 <= j < |TRANSITION_NAMES| && i != j ==>
      TRANSITION_NAMES[i] != TRANSITION_NAMES[j]
  {
  }

  lemma SlotNamesDistinct()
    ensures forall i, j :: 0 <= i < j < |SLOT_NAMES| ==> SLOT_NAMES[i] != SLOT_NAMES[j]
  {
  }

  /** Each slot of a transition's table holds a different animator. */
  lemma SlotsDiffer(transition: int, k: int, l: int)
    requires IsTransition(transition) && 0 <= k < l < 4
    ensures Table(transition)[k] != Table(transition)[l]
  {
    var name := TRANSITION_NAMES[transition];
    if Table(transition)[k] == Table(transition)[l] {
      CancelPrefix("transition_" + name + "_", SLOT_NAMES[k], SLOT_NAMES[l]);
      SlotNamesDistinct();
      assert false;
    }
  }

  /** Different transition types never share an animator in the same slot: the table tells the types apart. */
  lemma TablesDiffer(t1: int, t2: int, k: int)
    requires IsTransition(t1) && IsTransition(t2) && t1 != t2 && 0 <= k < 4
    ensures Table(t1)[k] != Table(t2)[k]
  {
    if Table(t1)[k] == Table(t2)[k] {
      assert ResourceName(TRANSITION_NAMES[t1], SLOT_NAMES[k]) == "transition_" + TRANSITION_NAMES[t1] + ("_" + SLOT_NAMES[k]);
      assert ResourceName(TRANSITION_NAMES[t2], SLOT_NAMES[k]) == "transition_" + TRANSITION_NAMES[t2] + ("_" + SLOT_NAMES[k]);
      CancelAround("transition_", TRANSITION_NAMES[t1], TRANSITION_NAMES[t2], "_" + SLOT_NAMES[k]);
      TransitionNamesDistinct();
      assert false;
    }
  }

  class TransitionManager {
    var currentTransition: int
    /** The four animator slots: left in, left out, right in, right out. */
    const animationResource: array<AnimatorRes>

    predicate Valid()
      reads this
    {
      animationResource.Length == 4
    }

    /**
     * A new manager loads the saved transition once; an unknown one leaves
     * every slot without a resource.
     */
    constructor (pref: int)
      ensures Valid() && fresh(animationResource) && currentTransition == pref
      ensures IsTransition(pref) ==> animationResource[..] == Table(pref)
      ensures !IsTransition(pref) ==> animationResource[..] == [NoResource, NoResource, NoResource, NoResource]
    {
      animationResource := new AnimatorRes[4](_ => NoResource);
      new;
      LoadTransitionPrefAndResource(pref);
    }

    /**
     * `loadTransitionPrefAndResource`, the saved value given: a known
     * transition type fills the four slots from its table, any other value
     * leaves them as they were.
     */
    method LoadTransitionPrefAndResource(pref: int)
      requires Valid()
      modifies this`currentTransition, animationResource
      ensures Valid() && currentTransition == pref
      ensures IsTransition(pref) ==> animationResource[..] == Table(pref)
      ensures !IsTransition(pref) ==> animationResource[..] == old(animationResource[..])
    {
      currentTransition := pref;
      if 0 <= currentTransition <= 7 {
        var name := TRANSITION_NAMES[currentTransition];
        SetAnimationResources(Animator(ResourceName(name, "left_in")), Animator(ResourceName(name, "left_out")),
                              Animator(ResourceName(name, "right_in")), Animator(ResourceName(name, "right_out")));
        assert animationResource[..] == Table(pref);
      }
    }

    /** `setAnimationResources`: the four slots in order. */
    method SetAnimationResources(leftIn: AnimatorRes, leftOut: AnimatorRes, rightIn: AnimatorRes, rightOut: AnimatorRes)
      requires Valid()
      modifies animationResource
      ensures animationResource[..] == [leftIn, leftOut, rightIn, rightOut]
    {
      animationResource[0] := leftIn;
      animationResource[1] := leftOut;
      animationResource[2] := rightIn;
      animationResource[3] := rightOut;
    }

    /** `getAnimationLeftIn`: the first slot. */
    method GetAnimationLeftIn() returns (res: AnimatorRes)
      requires Valid()
      ensures res == animationResource[0]
      ensures IsTransition(currentTransition) && animationResource[..] == Table(currentTransition) ==>
        res == Animator(ResourceName(TRANSITION_NAMES[currentTransition], "left_in"))
    {
      res := animationResource[0];
    }

    /** `getAnimationLeftOut`: the second slot. */
    method GetAnimationLeftOut() returns (res: AnimatorRes)
      requires Valid()
      ensures res == animationResource[1]
      ensures IsTransition(currentTransition) && animationResource[..] == Table(currentTransition) ==>
        res == Animator(ResourceName(TRANSITION_NAMES[currentTransition], "left_out"))
    {
      res := animationResource[1];
    }

    /** `getAnimationRightIn`: the third slot. */
    method GetAnimationRightIn() returns (res: AnimatorRes)
      requires Valid()
      ensures res == animationResource[2]
      ensures IsTransition(currentTransition) && animationResource[..] == Table(currentTransition) ==>
        res == Animator(ResourceName(TRANSITION_NAMES[currentTransition], "right_in"))
    {
      res := animationResource[2];
    }

    /** `getAnimationRightOut`: the fourth slot. */
    method GetAnimationRightOut() returns (res: AnimatorRes)
      requires Valid()
      ensures res == animationResource[3]
      ensures IsTransition(currentTransition) && animationResource[..] == Table(currentTransition) ==>
        res == Animator(ResourceName(TRANSITION_NAMES[currentTransition], "right_out"))
    {
      res := animationResource[3];
    }
  }
}
