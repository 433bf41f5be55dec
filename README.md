# screen-router navigation core in Dafny

This project models the navigation core of the `screen-router` Android library. The core is a
`RouterState` with two lists: a navigation stack of screens (`screenStack`) and a registry of
screen instances (`composedScreens`). It also models the discrete rules each screen instance
uses to pick its animation targets, decide when to dispose itself and decide whether it is
rendered.

The repository holds two copies of `RouterState`:
- `screen-router/src/main/java/com/somnionocte/screen_router/ScreenRouter.kt`, which also holds
  the `ScreenRouter` composable and its layout pass.
- `screen-router/src/main/java/com/somnionocte/screen_router/RouterState.kt`. It reads the
  gesture's `progress` where the other copy reads `transition`.

The two copies behave the same, so the model has one core, and the table below cites both files.

Modules, one per component:

- `Screens` (`screens.dfy`) defines screen values and the sentinel `NullScreen`.
- `Navigation` (`navigation.dfy`) covers the stack as a value:
  - the accessors `isEmpty`, `isNotEmpty`, `currentScreen` and `previousScreen`;
  - what `go` and `pop` do to the stack;
  - the per-instance flags `isInStack`, `isOpened` and `isPrevious`.
- `Transition` (`transition.dfy`) covers the animation rules:
  - the gesture input, read as a missing gesture giving progress 0 and "not dragged";
  - the opacity and offset targets, and which motion model (spring or tween) each uses;
  - the values an instance's opacity and offset start from.
- `Registry` (`registry.dfy`) covers the registry:
  - the `ScreenInstance` class;
  - its invariant (the sentinel's instance first, one instance per screen, an instance for
    every screen in the stack);
  - `fastLastOrNull` as a loop and `remove` as remove-first.
- `Layout` (`layout.dfy`) defines `isRendered` and the layout's place-only-rendered filter.
- `Router` (`router.dfy`) holds the `RouterState` class. Its fields are the stack, the registry
  and the live gesture. Its methods are `go`, `pop`, `dispose` and the completion callback of
  the offset animation, which guards disposal.

The animation engine is abstract:
- "is running" is an input, the set of instances whose opacity or offset animation is in flight;
- "the offset animation finished" is the method `OnOffsetAnimationFinished`.

Behaviour of the code the model keeps:

- The previous screen's opacity target is `progress * 0.75` whenever it is the previous screen.
  The code does not check whether the gesture is dragged.
- The layout measures every registered instance. It places only the rendered ones.
- An instance's offset starts at 0 only if the stack is empty when the instance is created. In
  the code this happens only for the sentinel's instance. `go` pushes the screen before it
  creates the instance, so every instance that `go` creates starts off-screen at 1000
  (`Router.RouterState.Go`).
- If a screen is pushed again while its instance is still exiting, the code reuses that
  instance. The completion callback then finds the screen in the stack and does not dispose it.

## Model

| member | source | states |
|---|---|---|
| `Navigation.IsEmpty` | screen-router/src/main/java/com/somnionocte/screen_router/ScreenRouter.kt:52 | definition of `isEmpty` (size is 1); its properties are stated by `Navigation.EmptinessCases` |
| `Navigation.IsNotEmpty` | screen-router/src/main/java/com/somnionocte/screen_router/ScreenRouter.kt:53 | definition of `isNotEmpty` (size above 1); its properties are stated by `Navigation.EmptinessCases` and `Navigation.AfterPop` |
| `Navigation.Current` | screen-router/src/main/java/com/somnionocte/screen_router/ScreenRouter.kt:54 | definition of `currentScreen` (the last element); its properties are stated by `Navigation.AfterGo` and `Navigation.GoPushesOrIgnores` |
| `Navigation.Previous` | screen-router/src/main/java/com/somnionocte/screen_router/ScreenRouter.kt:55 | definition of `previousScreen` (the element below the top, or null); its properties are stated by `Navigation.EmptinessCases` and `Navigation.GoPushesOrIgnores` |
| `Navigation.IsInStack` | screen-router/src/main/java/com/somnionocte/screen_router/ScreenRouter.kt:69 | definition of `isInStack` (stack membership); its properties are stated by `Navigation.FlagsAgree` |
| `Navigation.IsOpened` | screen-router/src/main/java/com/somnionocte/screen_router/ScreenRouter.kt:70 | definition of `isOpened` (the screen is current); its properties are stated by `Navigation.FlagsAgree` and `Registry.AtMostOneOpened` |
| `Navigation.IsPrevious` | screen-router/src/main/java/com/somnionocte/screen_router/ScreenRouter.kt:71 | definition of `isPrevious` (the screen is previous); its properties are stated by `Navigation.FlagsAgree` |
| `Layout.IsRendered` | screen-router/src/main/java/com/somnionocte/screen_router/ScreenRouter.kt:76 | definition of `isRendered` (running, or opened, or previous while dragged); its properties are stated by `Layout.Placed`, `Layout.OpenedIsPlaced` and `Layout.PreviousIsPlacedWhileDragged` |
| `Transition.Dragged` | screen-router/src/main/java/com/somnionocte/screen_router/ScreenRouter.kt:95 | definition of `isDragged == true` (false when there is no gesture); its effect is stated by `Transition.OpacitySpec`, `Transition.OffsetSpec` and `Layout.PreviousIsPlacedWhileDragged` |
| `Transition.InitialOffset` | screen-router/src/main/java/com/somnionocte/screen_router/ScreenRouter.kt:74 | definition of the starting offset (0 if the stack is empty, otherwise 1000); its use is stated by `Registry.ScreenInstance.constructor`, `Router.RouterState.constructor` and `Router.RouterState.Go` |
| `Navigation.AfterGo` | screen-router/src/main/java/com/somnionocte/screen_router/ScreenRouter.kt:57-59 | after `go(s)` the current screen is `s`; the old stack is a prefix of the new one and at most one screen is added; a reachable stack stays reachable (same code at RouterState.kt:102-104) |
| `Navigation.AfterPop` | screen-router/src/main/java/com/somnionocte/screen_router/ScreenRouter.kt:66 | `pop` keeps at least one element and leaves a prefix of the stack; it shrinks the stack exactly when `isNotEmpty`; a reachable stack (sentinel at the bottom, never empty, no screen directly on itself) stays reachable |
| `Navigation.EmptinessCases` | screen-router/src/main/java/com/somnionocte/screen_router/ScreenRouter.kt:52-55 | in a reachable stack exactly one of `isEmpty` / `isNotEmpty` holds; `previousScreen` is null exactly when `isEmpty`; an empty stack's current screen is `NullScreen` |
| `Navigation.GoPushesOrIgnores` | screen-router/src/main/java/com/somnionocte/screen_router/RouterState.kt:102-104 | `go(current)` leaves the stack unchanged; `go(s)` with another `s` makes the stack one longer with the old stack as prefix; `s` becomes current and the old current becomes previous |
| `Navigation.PopDropsTop` | screen-router/src/main/java/com/somnionocte/screen_router/RouterState.kt:118 | `pop` on an empty stack changes nothing; otherwise the new stack plus the old current screen is the old stack |
| `Navigation.PopUndoesGo` | screen-router/src/main/java/com/somnionocte/screen_router/ScreenRouter.kt:57-66 | `pop` after a `go` that pushed restores the stack exactly |
| `Navigation.GoGoPop` | screen-router/src/main/java/com/somnionocte/screen_router/ScreenRouter.kt:54-66 | for `a != b`, `go(a); go(b); pop()` leaves `a` current; if `a` was pushed, the screen that was current before it is previous |
| `Navigation.GoGoPopFromStart` | screen-router/src/main/java/com/somnionocte/screen_router/ScreenRouter.kt:49-66 | from the initial stack `[NullScreen]`, distinct `a != NullScreen` and `b`: `go(a); go(b); pop()` gives current `a` and previous `NullScreen` |
| `Navigation.FlagsAgree` | screen-router/src/main/java/com/somnionocte/screen_router/RouterState.kt:121-123 | an opened or previous screen is in the stack; in a reachable stack no screen is both opened and previous |
| `Transition.Progress` | screen-router/src/main/java/com/somnionocte/screen_router/RouterState.kt:144 | a missing gesture reads as progress 0; a valid gesture's progress is in [0,1] |
| `Transition.OpacityTarget` | screen-router/src/main/java/com/somnionocte/screen_router/RouterState.kt:151-155 | the opacity target is in [0,1]; it is 1 exactly when the screen is opened or not in the stack; a buried screen's target is 0 |
| `Transition.OpacitySpec` | screen-router/src/main/java/com/somnionocte/screen_router/RouterState.kt:143-150 | opacity moves by a 250 ms, no-delay tween exactly when the screen is buried (in the stack, neither opened nor previous); otherwise by a damping-1 spring, stiffness 2500 while dragged and between 225 and 2500 otherwise |
| `Transition.OffsetTarget` | screen-router/src/main/java/com/somnionocte/screen_router/RouterState.kt:165-169 | the offset target is in [0,1000]; it is 1000 (off-screen) exactly when the screen is not in the stack; in the stack it is at most 350 |
| `Transition.OffsetSpec` | screen-router/src/main/java/com/somnionocte/screen_router/RouterState.kt:160-163 | offset always moves by a damping-1 spring: stiffness 2500 while dragged, between 250 and 2500 otherwise |
| `Transition.BuriedFadesOut` | screen-router/src/main/java/com/somnionocte/screen_router/ScreenRouter.kt:94-117 | a buried screen fades to opacity 0 along the fixed tween and rests at offset 0, whatever the gesture |
| `Transition.RestingTargets` | screen-router/src/main/java/com/somnionocte/screen_router/ScreenRouter.kt:99-117 | with no gesture every screen in the stack rests at offset 0; the opened one is fully opaque and all the others are transparent |
| `Transition.GestureMovesTopTwo` | screen-router/src/main/java/com/somnionocte/screen_router/ScreenRouter.kt:99-117 | the opened screen's offset target is `350 * progress`; the previous screen's opacity target is `0.75 * progress` and its offset stays 0 |
| `Transition.GestureAtFourTenths` | screen-router/src/main/java/com/somnionocte/screen_router/RouterState.kt:151-169 | a drag at progress 0.4 gives offset target 140 for the opened screen and opacity target 0.3 for the previous one |
| `Registry.ScreenInstance.constructor` | screen-router/src/main/java/com/somnionocte/screen_router/RouterState.kt:120-126 | an instance keeps its screen; its opacity starts at 1 and its offset at 0 if the stack is empty at creation, otherwise at 1000 |
| `Registry.FastLastOrNull` | screen-router/src/main/java/com/somnionocte/screen_router/ScreenRouter.kt:61 | the search returns null exactly when no instance has the screen; otherwise it returns the last registered instance with that screen |
| `Registry.RemoveFirst` | screen-router/src/main/java/com/somnionocte/screen_router/ScreenRouter.kt:78 | `remove(x)` leaves the list unchanged when `x` is absent, and otherwise makes it exactly one shorter |
| `Registry.RemoveFirstCutsOut` | screen-router/src/main/java/com/somnionocte/screen_router/RouterState.kt:130 | `remove(x)` cuts out exactly the first occurrence of `x`; every other entry stays, in order |
| `Registry.InitialConsistent` | screen-router/src/main/java/com/somnionocte/screen_router/ScreenRouter.kt:49-50 | the initial registry (the sentinel's instance alone) is consistent with the initial stack |
| `Registry.GoReusesInstance` | screen-router/src/main/java/com/somnionocte/screen_router/ScreenRouter.kt:57-62 | pushing a screen that already has an instance, without adding one, keeps the registry consistent |
| `Registry.GoAddsInstance` | screen-router/src/main/java/com/somnionocte/screen_router/RouterState.kt:102-109 | pushing a screen with no instance and appending one new instance for it keeps screens unique and every stack screen covered |
| `Registry.PopKeepsConsistent` | screen-router/src/main/java/com/somnionocte/screen_router/RouterState.kt:118 | `pop` keeps the registry consistent with the stack |
| `Registry.DisposeKeepsConsistent` | screen-router/src/main/java/com/somnionocte/screen_router/ScreenRouter.kt:112 | removing an instance whose screen is not in the stack keeps the registry consistent; the sentinel's instance stays first |
| `Registry.AtMostOneOpened` | screen-router/src/main/java/com/somnionocte/screen_router/RouterState.kt:122 | in a registry with unique screens, at most one instance is opened |
| `Registry.OpenedHasInstance` | screen-router/src/main/java/com/somnionocte/screen_router/ScreenRouter.kt:50-62 | in a consistent registry the current screen has an instance |
| `Layout.Placed` | screen-router/src/main/java/com/somnionocte/screen_router/ScreenRouter.kt:166-173 | the layout places exactly the registered instances whose `isRendered` holds (running, or opened, or previous while dragged), in registry order |
| `Layout.OpenedIsPlaced` | screen-router/src/main/java/com/somnionocte/screen_router/ScreenRouter.kt:76 | the opened screen's instance is always placed |
| `Layout.PreviousIsPlacedWhileDragged` | screen-router/src/main/java/com/somnionocte/screen_router/RouterState.kt:128 | while the back gesture is dragged, the previous screen's instance is placed |
| `Layout.SettledPlacesOnlyOpened` | screen-router/src/main/java/com/somnionocte/screen_router/ScreenRouter.kt:166-173 | with no animation running and no drag, exactly one instance is placed, the opened screen's |
| `Router.RouterState.constructor` | screen-router/src/main/java/com/somnionocte/screen_router/ScreenRouter.kt:47-50 | a new router holds `[NullScreen]` and one sentinel instance resting at offset 0, with no gesture, and satisfies the invariant |
| `Router.RouterState.Go` | screen-router/src/main/java/com/somnionocte/screen_router/ScreenRouter.kt:57-64 | `go` keeps the invariant and updates the stack as `AfterGo`; the registry is unchanged when the screen is current or already has an instance; otherwise one fresh instance for the screen is appended, starting at opacity 1 and offset 1000 |
| `Router.RouterState.Pop` | screen-router/src/main/java/com/somnionocte/screen_router/ScreenRouter.kt:66 | `pop` keeps the invariant and updates the stack as `AfterPop`; the registry is unchanged |
| `Router.RouterState.Dispose` | screen-router/src/main/java/com/somnionocte/screen_router/RouterState.kt:130 | `dispose` removes the instance's first occurrence from the registry; the stack is unchanged; the invariant survives when the screen is not in the stack |
| `Router.RouterState.OnOffsetAnimationFinished` | screen-router/src/main/java/com/somnionocte/screen_router/RouterState.kt:164 | the completion callback disposes the instance only when its screen is neither in the stack nor opened; it never changes the stack and keeps the invariant |
| `Router.RouterState.PlacedInstances` | screen-router/src/main/java/com/somnionocte/screen_router/ScreenRouter.kt:159-173 | for a valid router the placed set always holds the opened screen's instance; it also holds the previous screen's while dragged; it is exactly that one instance when nothing runs and nothing is dragged |
| `Router.HomeProfileScenario` | screen-router/src/main/java/com/somnionocte/screen_router/ScreenRouter.kt:57-78 | `go(home); go(profile); pop()` then profile's offset-finish event: the `ensures` give the final state, `home` current above the sentinel and the registry holding exactly the sentinel's and home's instances; that the registry held sentinel, home and profile before the finish event is proved in the body, from `Go`'s and `Pop`'s `ensures` |

## Left out

- Animation engine (`animatableAs` in extensions/animatable.kt): spring physics and the
  stepping of animated values are not modelled. Whether an animation is in flight is an input
  (`running`). "Offset animation finished" is the explicit event `OnOffsetAnimationFinished`.
- The back-transition animatable in `Render` (ScreenRouter.kt:84-87): it feeds only the scale
  in the graphics layer, which is out of scope.
- The `graphicsLayer` block (alpha, scale `lerp`, `translationX` in pixels, rounded corners,
  clipping) and extensions/graphicsLayer.kt: floating-point rendering that depends on the
  view size.
- Floating point: every Kotlin `Float` is an exact real here. `Transition.GestureAtFourTenths`
  states 140 and 0.3 exactly, whereas `0.4f * 350f` and `0.4f * 0.75f` round in 32-bit floats.
- `ScreenRouter` composable wiring is not modelled:
  - focus clearing;
  - `onPredictiveBackHandler` installation, with gestures enabled only while `isNotEmpty` and a
    commit that calls `pop` (the model has `Pop` and the `predictiveGesture` field instead);
  - the `DisposableEffect` that clears the gesture;
  - `SubcomposeLayout` measurement of every instance;
  - `movableContentOf` content identity.
- `viewModel` lookup and the `LocalScreenRouter` composition local that throws when it is
  missing: framework configuration, not navigation state.
- extensions/screenRadiusCorner.kt: a platform display query.
- Concurrency: the library runs on one UI thread, and the model is sequential.
