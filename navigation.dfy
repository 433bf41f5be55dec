/**
 * The navigation stack `screenStack` of `RouterState`, read as a value:
 * its accessors (`isEmpty`, `isNotEmpty`, `currentScreen`,
 * `previousScreen`), the effect of `go` and `pop` on it, and the
 * per-screen flags `isInStack`, `isOpened` and `isPrevious` that every
 * screen instance derives from it.
 */
module Navigation {
  import opened Screens

  /**
   * The invariant of every stack the router can reach: never empty,
   * the sentinel at the bottom, and no screen directly on top of itself
   * (because `go` ignores the current screen).
   */
  predicate WellFormed(stack: seq<Screen>)
  {
    |stack| >= 1 && stack[0] == NullScreen &&
    forall i :: 1 <= i < |stack| ==> stack[i - 1] != stack[i]
  }

  /** `isEmpty`: only the sentinel is left. */
  predicate IsEmpty(stack: seq<Screen>)
  {
    |stack| == 1
  }

  /** `isNotEmpty`: some application screen is on the stack. */
  predicate IsNotEmpty(stack: seq<Screen>)
  {
    |stack| > 1
  }

  /** `currentScreen`: the last element (`last()` would throw on an empty list). */
  function Current(stack: seq<Screen>): Screen
    requires |stack| >= 1
  {
    stack[|stack| - 1]
  }

  /** `previousScreen`: `getOrNull(lastIndex - 1)`. */
  function Previous(stack: seq<Screen>): Option<Screen>
  {
    if |stack| >= 2 then Some(stack[|stack| - 2]) else None
  }

  /** The stack after `go(screen)`. */
  function AfterGo(stack: seq<Screen>, screen: Screen): (r: seq<Screen>)
    requires |stack| >= 1
    ensures |stack| <= |r| <= |stack| + 1 && r[..|stack|] == stack
    ensures Current(r) == screen
    ensures WellFormed(stack) ==> WellFormed(r)
  {
    if screen != Current(stack) then stack + [screen] else stack
  }

  /** The stack after `pop()`. */
  function AfterPop(stack: seq<Screen>): (r: seq<Screen>)
    requires |stack| >= 1
    ensures 1 <= |r| <= |stack| && r == stack[..|r|]
    ensures IsNotEmpty(stack) <==> |r| < |stack|
    ensures WellFormed(stack) ==> WellFormed(r)
  {
    if IsNotEmpty(stack) then stack[..|stack| - 1] else stack
  }

  /** `ScreenInstance.isInStack`. */
  predicate IsInStack(stack: seq<Screen>, screen: Screen)
  {
    screen in stack
  }

  /** `ScreenInstance.isOpened`. */
  predicate IsOpened(stack: seq<Screen>, screen: Screen)
    requires |stack| >= 1
  {
    Current(stack) == screen
  }

  /** `ScreenInstance.isPrevious`. */
  predicate IsPrevious(stack: seq<Screen>, screen: Screen)
  {
    Previous(stack) == Some(screen)
  }

  /** In a reachable stack exactly one of `isEmpty` and `isNotEmpty` holds,
      and `previousScreen` is null exactly when the stack is empty. */
  lemma EmptinessCases(stack: seq<Screen>)
    requires WellFormed(stack)
    ensures IsEmpty(stack) <==> !IsNotEmpty(stack)
    ensures Previous(stack) == None <==> IsEmpty(stack)
    ensures IsEmpty(stack) ==> Current(stack) == NullScreen
  {
  }

  /** `go` on the current screen changes nothing; on any other screen it
      pushes exactly that screen on top of the unchanged stack. */
  lemma GoPushesOrIgnores(stack: seq<Screen>, screen: Screen)
    requires WellFormed(stack)
    ensures screen == Current(stack) ==> AfterGo(stack, screen) == stack
    ensures screen != Current(stack) ==>
      var r := AfterGo(stack, screen);
      |r| == |stack| + 1 && r[..|stack|] == stack && Current(r) == screen &&
      Previous(r) == Some(Current(stack))
  {
  }

  /** `pop` leaves an empty stack alone and otherwise drops exactly the top. */
  lemma PopDropsTop(stack: seq<Screen>)
    requires WellFormed(stack)
    ensures IsEmpty(stack) ==> AfterPop(stack) == stack
    ensures IsNotEmpty(stack) ==> AfterPop(stack) + [Current(stack)] == stack
  {
  }

  /** `pop` undoes a `go` that pushed. */
  lemma PopUndoesGo(stack: seq<Screen>, screen: Screen)
    requires WellFormed(stack) && screen != Current(stack)
    ensures AfterPop(AfterGo(stack, screen)) == stack
  {
  }

  /** `go(a); go(b); pop()` with `a != b` leaves `a` current, with the
      screen that was current before it underneath when `a` was pushed. */
  lemma GoGoPop(stack: seq<Screen>, a: Screen, b: Screen)
    requires WellFormed(stack) && a != b
    ensures var r := AfterPop(AfterGo(AfterGo(stack, a), b));
      Current(r) == a &&
      (a != Current(stack) ==> Previous(r) == Some(Current(stack)))
  {
  }

  /** From the initial stack: `go(a); go(b); pop()` gives `a` on top of the sentinel. */
  lemma GoGoPopFromStart(a: Screen, b: Screen)
    requires a != NullScreen && a != b
    ensures var r := AfterPop(AfterGo(AfterGo([NullScreen], a), b));
      Current(r) == a && Previous(r) == Some(NullScreen)
  {
  }

  /** The opened and the previous screen are in the stack, and in a
      reachable stack no screen is both opened and previous. */
  lemma FlagsAgree(stack: seq<Screen>, screen: Screen)
    requires WellFormed(stack)
    ensures IsOpened(stack, screen) ==> IsInStack(stack, screen)
    ensures IsPrevious(stack, screen) ==> IsInStack(stack, screen) && !IsOpened(stack, screen)
  {
  }
}
