/**
 * The discrete rules of a screen instance's transition animation: which
 * value its opacity and horizontal offset are animated towards, which
 * motion model drives them, and where they start. The animation engine
 * itself is not modelled; these are the `value`, `spec` and initial-value
 * expressions the engine is given.
 */
module Transition {
  import opened Screens
  import opened Navigation

  /** The live predictive-back gesture the router holds (`predictiveGesture`). */
  datatype Gesture = Gesture(isDragged: bool, progress: real)

  /** The platform reports progress as a fraction of the full gesture. */
  predicate ValidGesture(g: Option<Gesture>)
  {
    g.Some? ==> 0.0 <= g.value.progress <= 1.0
  }

  /** `predictiveGesture?.progress ?: 0f`. */
  function Progress(g: Option<Gesture>): (r: real)
    ensures ValidGesture(g) ==> 0.0 <= r <= 1.0
    ensures g.None? ==> r == 0.0
  {
    if g.Some? then g.value.progress else 0.0
  }

  /** `predictiveGesture?.isDragged == true`. */
  predicate Dragged(g: Option<Gesture>)
  {
    g.Some? && g.value.isDragged
  }

  datatype Easing = EaseIn

  /** The animation specifications the source chooses between. */
  datatype AnimationSpec =
    | Spring(dampingRatio: real, stiffness: real)
    | Tween(durationMillis: nat, delayMillis: nat, easing: Easing)

  /** The stiffness of every spring while the gesture is being dragged. */
  const DraggedStiffness: real := 2500.0

  /** A screen that is in the stack but neither opened nor previous. */
  predicate IsBuried(stack: seq<Screen>, screen: Screen)
    requires |stack| >= 1
  {
    IsInStack(stack, screen) && !IsOpened(stack, screen) && !IsPrevious(stack, screen)
  }

  /** The opacity animation's target value. */
  function OpacityTarget(stack: seq<Screen>, screen: Screen, g: Option<Gesture>): (r: real)
    requires |stack| >= 1
    ensures ValidGesture(g) ==> 0.0 <= r <= 1.0
    ensures ValidGesture(g) ==> (r == 1.0 <==> IsOpened(stack, screen) || !IsInStack(stack, screen))
    ensures IsBuried(stack, screen) ==> r == 0.0
  {
    if IsOpened(stack, screen) || !IsInStack(stack, screen) then 1.0
    else if IsPrevious(stack, screen) then Progress(g) * 0.75
    else 0.0
  }

  /** The opacity animation's motion model. */
  function OpacitySpec(stack: seq<Screen>, screen: Screen, g: Option<Gesture>): (r: AnimationSpec)
    requires |stack| >= 1
    ensures r.Tween? <==> IsBuried(stack, screen)
    ensures r.Tween? ==> r.durationMillis == 250 && r.delayMillis == 0
    ensures r.Spring? ==> r.dampingRatio == 1.0
    ensures r.Spring? && Dragged(g) ==> r.stiffness == DraggedStiffness
    ensures r.Spring? && ValidGesture(g) ==> 225.0 <= r.stiffness <= DraggedStiffness
  {
    var defaultSpeed := 225.0 + Progress(g) * 1250.0;
    if IsOpened(stack, screen) || !IsInStack(stack, screen) || IsPrevious(stack, screen) then
      Spring(1.0, if Dragged(g) then DraggedStiffness else defaultSpeed)
    else
      Tween(250, 0, EaseIn)
  }

  /** The offset animation's target value (a thousandth of the width per unit). */
  function OffsetTarget(stack: seq<Screen>, screen: Screen, g: Option<Gesture>): (r: real)
    requires |stack| >= 1
    ensures ValidGesture(g) ==> 0.0 <= r <= 1000.0
    ensures ValidGesture(g) ==> (r == 1000.0 <==> !IsInStack(stack, screen))
    ensures ValidGesture(g) && IsInStack(stack, screen) ==> r <= 350.0
  {
    if IsOpened(stack, screen) then Progress(g) * 350.0
    else if IsInStack(stack, screen) then 0.0
    else 1000.0
  }

  /** The offset animation's motion model: always a critically damped spring. */
  function OffsetSpec(g: Option<Gesture>): (r: AnimationSpec)
    ensures r.Spring? && r.dampingRatio == 1.0
    ensures Dragged(g) ==> r.stiffness == DraggedStiffness
    ensures ValidGesture(g) ==> 250.0 <= r.stiffness <= DraggedStiffness
  {
    var defaultSpeed := 250.0 + Progress(g) * 1250.0;
    Spring(1.0, if Dragged(g) then DraggedStiffness else defaultSpeed)
  }

  /** Every instance's opacity starts fully opaque. */
  const InitialOpacity: real := 1.0

  /** The offset an instance starts at, given whether the stack was empty
      when the instance was created. */
  function InitialOffset(stackIsEmpty: bool): real
  {
    if stackIsEmpty then 0.0 else 1000.0
  }

  /** A buried screen fades out to 0 along the fixed 250 ms ease-in tween,
      whatever the gesture does. */
  lemma BuriedFadesOut(stack: seq<Screen>, screen: Screen, g: Option<Gesture>)
    requires |stack| >= 1 && IsBuried(stack, screen)
    ensures OpacitySpec(stack, screen, g) == Tween(250, 0, EaseIn)
    ensures OpacityTarget(stack, screen, g) == 0.0
    ensures OffsetTarget(stack, screen, g) == 0.0
  {
  }

  /** With no gesture in progress every screen in the stack rests at
      offset 0, the opened one fully opaque and all the others transparent. */
  lemma RestingTargets(stack: seq<Screen>, screen: Screen)
    requires WellFormed(stack) && IsInStack(stack, screen)
    ensures OffsetTarget(stack, screen, None) == 0.0
    ensures OpacityTarget(stack, screen, None) == if IsOpened(stack, screen) then 1.0 else 0.0
  {
  }

  /** The dragged back gesture moves only the opened screen and the previous one:
      the opened screen slides right by 350 per unit of progress and the previous
      one fades in to three quarters of the progress. */
  lemma GestureMovesTopTwo(stack: seq<Screen>, g: Option<Gesture>)
    requires WellFormed(stack) && IsNotEmpty(stack)
    ensures OffsetTarget(stack, Current(stack), g) == Progress(g) * 350.0
    ensures OpacityTarget(stack, Previous(stack).value, g) == Progress(g) * 0.75
    ensures OffsetTarget(stack, Previous(stack).value, g) == 0.0
  {
  }

  /** A drag at progress 0.4 puts the opened screen's offset target at 140
      and the previous screen's opacity target at 0.3. */
  lemma GestureAtFourTenths(stack: seq<Screen>)
    requires WellFormed(stack) && IsNotEmpty(stack)
    ensures OffsetTarget(stack, Current(stack), Some(Gesture(true, 0.4))) == 140.0
    ensures OpacityTarget(stack, Previous(stack).value, Some(Gesture(true, 0.4))) == 0.3
  {
  }
}
