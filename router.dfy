/**
 * `RouterState`: the navigation stack and the instance registry, the
 * only mutable state of the router, changed by `go`, `pop` and the
 * disposal an instance's finished offset animation triggers.
 */
module Router {
  import opened Screens
  import opened Navigation
  import opened Transition
  import opened Registry
  import opened Layout

  class RouterState {
    /** The live back gesture, installed by the router's composable; `None` when absent. */
    var predictiveGesture: Option<Gesture>
    /** The navigation history; the last element is the current screen. */
    var screenStack: seq<Screen>
    /** One instance per screen value, in the order they were created. */
    var composedScreens: seq<ScreenInstance>

    /** The router's invariant, kept by every operation. */
    ghost predicate Valid()
      reads this
    {
      WellFormed(screenStack) && Consistent(composedScreens, screenStack)
    }

    /** A fresh router: the sentinel alone on the stack, its instance alone
        in the registry, created while the stack is empty and so resting at offset 0. */
    constructor ()
      ensures Valid()
      ensures predictiveGesture == None
      ensures screenStack == [NullScreen]
      ensures |composedScreens| == 1 && fresh(composedScreens[0])
      ensures composedScreens[0].initialOffset == 0.0
    {
      var stack := [NullScreen];
      var root := new ScreenInstance(NullScreen, IsEmpty(stack));
      predictiveGesture := None;
      screenStack := stack;
      composedScreens := [root];
      new;
      InitialConsistent(root);
    }

    /** `go(screen)`: push `screen` unless it is already current, and create
        its instance if it has none. */
    method Go(screen: Screen)
      requires Valid()
      modifies this
      ensures Valid()
      ensures predictiveGesture == old(predictiveGesture)
      ensures screenStack == AfterGo(old(screenStack), screen)
      ensures screen == Current(old(screenStack)) || HasInstance(old(composedScreens), screen) ==>
        composedScreens == old(composedScreens)
      ensures screen != Current(old(screenStack)) && !HasInstance(old(composedScreens), screen) ==>
        var n := |old(composedScreens)|;
        |composedScreens| == n + 1 && composedScreens[..n] == old(composedScreens) &&
        fresh(composedScreens[n]) && composedScreens[n].screen == screen &&
        composedScreens[n].initialOpacity == 1.0 && composedScreens[n].initialOffset == 1000.0
    {
      if screen != Current(screenStack) {
        screenStack := screenStack + [screen];
        var existing := FastLastOrNull(composedScreens, screen);
        if existing.None? {
          var instance := new ScreenInstance(screen, IsEmpty(screenStack));
          GoAddsInstance(composedScreens, old(screenStack), instance);
          composedScreens := composedScreens + [instance];
        } else {
          GoReusesInstance(composedScreens, old(screenStack), screen);
        }
      }
    }

    /** `pop()`: drop the current screen unless only the sentinel is left;
        the registry keeps the popped screen's instance until its exit finishes. */
    method Pop()
      requires Valid()
      modifies this
      ensures Valid()
      ensures predictiveGesture == old(predictiveGesture)
      ensures screenStack == AfterPop(old(screenStack))
      ensures composedScreens == old(composedScreens)
    {
      PopKeepsConsistent(composedScreens, screenStack);
      if IsNotEmpty(screenStack) {
        screenStack := screenStack[..|screenStack| - 1];
      }
    }

    /** `ScreenInstance.dispose()`: remove the instance from the registry.
        Unguarded, it keeps the invariant only for a screen outside the stack. */
    method Dispose(instance: ScreenInstance)
      requires Valid()
      modifies this
      ensures predictiveGesture == old(predictiveGesture)
      ensures screenStack == old(screenStack)
      ensures composedScreens == RemoveFirst(old(composedScreens), instance)
      ensures !IsInStack(screenStack, instance.screen) ==> Valid()
    {
      if !IsInStack(screenStack, instance.screen) {
        DisposeKeepsConsistent(composedScreens, screenStack, instance);
      }
      composedScreens := RemoveFirst(composedScreens, instance);
    }

    /** The offset animation's completion callback: dispose the instance only
        if it is neither in the stack nor opened. */
    method OnOffsetAnimationFinished(instance: ScreenInstance)
      requires Valid()
      modifies this
      ensures Valid()
      ensures predictiveGesture == old(predictiveGesture)
      ensures screenStack == old(screenStack)
      ensures IsInStack(screenStack, instance.screen) ==> composedScreens == old(composedScreens)
      ensures !IsInStack(screenStack, instance.screen) ==>
        composedScreens == RemoveFirst(old(composedScreens), instance)
    {
      FlagsAgree(screenStack, instance.screen);
      if !IsInStack(screenStack, instance.screen) && !IsOpened(screenStack, instance.screen) {
        Dispose(instance);
      }
    }

    /** The instances the layout places this frame, given the ones animating. */
    function PlacedInstances(running: set<ScreenInstance>): (r: seq<ScreenInstance>)
      reads this
      requires Valid()
      ensures exists i :: 0 <= i < |r| && r[i].screen == Current(screenStack)
      ensures Dragged(predictiveGesture) && IsNotEmpty(screenStack) ==>
        exists i :: 0 <= i < |r| && r[i].screen == Previous(screenStack).value
      ensures running == {} && !Dragged(predictiveGesture) ==>
        |r| == 1 && r[0].screen == Current(screenStack)
    {
      OpenedIsPlaced(screenStack, composedScreens, running, predictiveGesture);
      var r := Placed(screenStack, composedScreens, running, predictiveGesture);
      if Dragged(predictiveGesture) && IsNotEmpty(screenStack) then
        PreviousIsPlacedWhileDragged(screenStack, composedScreens, running, predictiveGesture);
        r
      else if running == {} && !Dragged(predictiveGesture) then
        SettledPlacesOnlyOpened(screenStack, composedScreens, predictiveGesture);
        r
      else r
    }
  }

  /** `go(home); go(profile); pop()` from a fresh router: `home` is current above
      the sentinel, and the registry still holds sentinel, home and profile until
      profile's exit animation finishes, after which it holds sentinel and home. */
  method HomeProfileScenario(home: Screen, profile: Screen) returns (router: RouterState)
    requires home != NullScreen && profile != NullScreen && home != profile
    ensures router.Valid()
    ensures router.screenStack == [NullScreen, home]
    ensures Current(router.screenStack) == home && Previous(router.screenStack) == Some(NullScreen)
    ensures |router.composedScreens| == 2
    ensures router.composedScreens[0].screen == NullScreen && router.composedScreens[1].screen == home
  {
    router := new RouterState();
    router.Go(home);
    assert router.screenStack == [NullScreen, home];
    assert |router.composedScreens| == 2 && router.composedScreens[1].screen == home;
    router.Go(profile);
    assert router.screenStack == [NullScreen, home, profile];
    assert !HasInstance(router.composedScreens[..2], profile);
    assert |router.composedScreens| == 3 && router.composedScreens[2].screen == profile;
    router.Pop();
    assert router.screenStack == [NullScreen, home];
    var exiting := router.composedScreens[2];
    var before := router.composedScreens;
    router.OnOffsetAnimationFinished(exiting);
    RemoveFirstCutsOut(before, exiting);
    assert IndexOf(before, exiting) == 2;
  }
}
