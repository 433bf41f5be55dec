/**
 * The router's layout pass: every registered instance is composed, but
 * only the ones whose `isRendered` holds are placed, all at the origin
 * and in registry order (the first registered is painted at the back).
 */
module Layout {
  import opened Screens
  import opened Navigation
  import opened Transition
  import opened Registry

  /**
   * `ScreenInstance.isRendered`: the instance is animating, is opened, or
   * is the previous screen while the back gesture is dragged. `running`
   * holds the instances whose opacity or offset animation is in flight.
   */
  predicate IsRendered(stack: seq<Screen>, x: ScreenInstance, running: set<ScreenInstance>, g: Option<Gesture>)
    requires |stack| >= 1
  {
    x in running || IsOpened(stack, x.screen) || (IsPrevious(stack, x.screen) && Dragged(g))
  }

  /** `r` is `s` with some elements left out and the rest in their order. */
  predicate IsSubsequence(r: seq<ScreenInstance>, s: seq<ScreenInstance>)
    decreases |s|
  {
    if r == [] then true
    else if s == [] then false
    else (r[0] == s[0] && IsSubsequence(r[1..], s[1..])) || IsSubsequence(r, s[1..])
  }

  /** The instances the layout places: `fastMapIndexed` to the placeable or
      null by `isRendered`, then `fastFilterNotNull`. */
  function Placed(stack: seq<Screen>, instances: seq<ScreenInstance>, running: set<ScreenInstance>, g: Option<Gesture>): (r: seq<ScreenInstance>)
    requires |stack| >= 1
    ensures forall i :: 0 <= i < |r| ==> r[i] in instances && IsRendered(stack, r[i], running, g)
    ensures forall i :: 0 <= i < |instances| && IsRendered(stack, instances[i], running, g) ==> instances[i] in r
    ensures IsSubsequence(r, instances)
  {
    if instances == [] then []
    else
      var rest := Placed(stack, instances[1..], running, g);
      if IsRendered(stack, instances[0], running, g) then [instances[0]] + rest else rest
  }

  /** The opened screen's instance is always placed. */
  lemma OpenedIsPlaced(stack: seq<Screen>, instances: seq<ScreenInstance>, running: set<ScreenInstance>, g: Option<Gesture>)
    requires WellFormed(stack) && Consistent(instances, stack)
    ensures exists x :: x in Placed(stack, instances, running, g) && x.screen == Current(stack)
  {
  }

  /** While the back gesture is dragged, the previous screen's instance is placed too. */
  lemma PreviousIsPlacedWhileDragged(stack: seq<Screen>, instances: seq<ScreenInstance>, running: set<ScreenInstance>, g: Option<Gesture>)
    requires WellFormed(stack) && Consistent(instances, stack) && IsNotEmpty(stack) && Dragged(g)
    ensures exists x :: x in Placed(stack, instances, running, g) && x.screen == Previous(stack).value
  {
  }

  /** Number of instances that render `screen`. */
  function CountScreen(instances: seq<ScreenInstance>, screen: Screen): nat
  {
    if instances == [] then 0
    else (if instances[0].screen == screen then 1 else 0) + CountScreen(instances[1..], screen)
  }

  /** In a registry with unique screens, `screen` is rendered by exactly one
      instance when it has one, and by none otherwise. */
  lemma {:induction false} CountUnique(instances: seq<ScreenInstance>, screen: Screen)
    requires UniqueScreens(instances)
    ensures CountScreen(instances, screen) == if HasInstance(instances, screen) then 1 else 0
  {
    if instances != [] {
      var t := instances[1..];
      assert UniqueScreens(t) by {
        forall i, j | 0 <= i < j < |t| ensures t[i].screen != t[j].screen {
          assert t[i] == instances[i + 1] && t[j] == instances[j + 1];
        }
      }
      CountUnique(t, screen);
      if instances[0].screen == screen {
        assert !HasInstance(t, screen) by {
          forall i | 0 <= i < |t| ensures t[i].screen != screen {
            assert t[i] == instances[i + 1];
          }
        }
      } else {
        assert HasInstance(instances, screen) == HasInstance(t, screen) by {
          if HasInstance(instances, screen) {
            var i :| 0 <= i < |instances| && instances[i].screen == screen;
            assert i != 0 && t[i - 1] == instances[i];
          }
          if HasInstance(t, screen) {
            var i :| 0 <= i < |t| && t[i].screen == screen;
            assert instances[i + 1] == t[i];
          }
        }
      }
    }
  }

  /** With nothing running and no drag, the placed instances are exactly the
      current screen's, counted by `CountScreen`. */
  lemma {:induction false} PlacedOnlyOpened(stack: seq<Screen>, instances: seq<ScreenInstance>, g: Option<Gesture>)
    requires |stack| >= 1 && !Dragged(g)
    ensures |Placed(stack, instances, {}, g)| == CountScreen(instances, Current(stack))
    ensures forall i :: 0 <= i < |Placed(stack, instances, {}, g)| ==> Placed(stack, instances, {}, g)[i].screen == Current(stack)
  {
    if instances != [] {
      PlacedOnlyOpened(stack, instances[1..], g);
    }
  }

  /** Once every animation has settled and no gesture is dragged, the layout
      places exactly one instance: the opened screen's. */
  lemma SettledPlacesOnlyOpened(stack: seq<Screen>, instances: seq<ScreenInstance>, g: Option<Gesture>)
    requires WellFormed(stack) && Consistent(instances, stack) && !Dragged(g)
    ensures |Placed(stack, instances, {}, g)| == 1
    ensures Placed(stack, instances, {}, g)[0].screen == Current(stack)
  {
    PlacedOnlyOpened(stack, instances, g);
    CountUnique(instances, Current(stack));
    assert HasInstance(instances, stack[|stack| - 1]);
  }
}
