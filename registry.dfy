/**
 * The instance registry `composedScreens`: one `ScreenInstance` per
 * screen value, kept in insertion order. Instances are objects: the
 * registry removes an instance by identity (`remove(this)`), and the
 * layout keys each one's content by identity.
 */
module Registry {
  import opened Screens
  import opened Navigation
  import Transition

  /**
   * One screen's lifecycle record. Its animated scalars live outside
   * this model; what it fixes at creation is the screen it renders and
   * the values its opacity and offset start from.
   */
  class ScreenInstance {
    const screen: Screen
    const initialOpacity: real
    const initialOffset: real

    /** `ScreenInstance(screen)`, created while the stack's `isEmpty` is `stackIsEmpty`. */
    constructor (screen: Screen, stackIsEmpty: bool)
      ensures this.screen == screen
      ensures initialOpacity == Transition.InitialOpacity
      ensures initialOffset == Transition.InitialOffset(stackIsEmpty)
    {
      this.screen := screen;
      initialOpacity := Transition.InitialOpacity;
      initialOffset := Transition.InitialOffset(stackIsEmpty);
    }
  }

  /** Some registered instance renders `screen`. */
  predicate HasInstance(instances: seq<ScreenInstance>, screen: Screen)
  {
    exists i :: 0 <= i < |instances| && instances[i].screen == screen
  }

  /** No two registered instances render the same screen. */
  predicate UniqueScreens(instances: seq<ScreenInstance>)
  {
    forall i, j :: 0 <= i < j < |instances| ==> instances[i].screen != instances[j].screen
  }

  /** Every screen in the stack has a registered instance. */
  predicate Covers(instances: seq<ScreenInstance>, stack: seq<Screen>)
  {
    forall k :: 0 <= k < |stack| ==> HasInstance(instances, stack[k])
  }

  /** The registry invariant: the sentinel's instance first, one instance
      per screen, and an instance for every screen in the stack. */
  predicate Consistent(instances: seq<ScreenInstance>, stack: seq<Screen>)
  {
    |instances| >= 1 && instances[0].screen == NullScreen &&
    UniqueScreens(instances) && Covers(instances, stack)
  }

  /** `fastLastOrNull { it.screen == screen }`: scans from the end. */
  method FastLastOrNull(instances: seq<ScreenInstance>, screen: Screen) returns (found: Option<ScreenInstance>)
    ensures found.None? <==> !HasInstance(instances, screen)
    ensures found.Some? ==> found.value.screen == screen
    ensures found.Some? ==> exists i :: (0 <= i < |instances| && instances[i] == found.value &&
      forall j :: i < j < |instances| ==> instances[j].screen != screen)
  {
    var index := |instances|;
    while index > 0
      invariant 0 <= index <= |instances|
      invariant forall j :: index <= j < |instances| ==> instances[j].screen != screen
    {
      index := index - 1;
      if instances[index].screen == screen {
        return Some(instances[index]);
      }
    }
    return None;
  }

  /** The position of the first occurrence of `x`. */
  function IndexOf(instances: seq<ScreenInstance>, x: ScreenInstance): (i: nat)
    requires x in instances
    ensures i < |instances| && instances[i] == x
    ensures forall j :: 0 <= j < i ==> instances[j] != x
  {
    if instances[0] == x then 0 else 1 + IndexOf(instances[1..], x)
  }

  /** `remove(x)`: drops the first occurrence of `x`, if any. */
  function RemoveFirst(instances: seq<ScreenInstance>, x: ScreenInstance): (r: seq<ScreenInstance>)
    ensures x !in instances ==> r == instances
    ensures x in instances ==> |r| == |instances| - 1
  {
    if |instances| == 0 then []
    else if instances[0] == x then instances[1..]
    else [instances[0]] + RemoveFirst(instances[1..], x)
  }

  /** `remove(x)` cuts out exactly the first occurrence of `x` and keeps
      every other entry in its order. */
  lemma {:induction false} RemoveFirstCutsOut(instances: seq<ScreenInstance>, x: ScreenInstance)
    requires x in instances
    ensures RemoveFirst(instances, x) ==
      instances[..IndexOf(instances, x)] + instances[IndexOf(instances, x) + 1..]
  {
    if instances[0] != x {
      var t := instances[1..];
      assert x in t;
      assert RemoveFirst(instances, x) == [instances[0]] + RemoveFirst(t, x);
      assert IndexOf(instances, x) == 1 + IndexOf(t, x);
      RemoveFirstCutsOut(t, x);
      var k := IndexOf(t, x);
      calc {
        RemoveFirst(instances, x);
        [instances[0]] + (t[..k] + t[k + 1..]);
        ([instances[0]] + t[..k]) + t[k + 1..];
        { assert instances[..k + 1] == [instances[0]] + t[..k];
          assert instances[k + 2..] == t[k + 1..]; }
        instances[..k + 1] + instances[k + 2..];
      }
    }
  }

  /** The initial registry, holding only the sentinel's instance, is consistent
      with the initial stack. */
  lemma InitialConsistent(root: ScreenInstance)
    requires root.screen == NullScreen
    ensures Consistent([root], [NullScreen])
  {
  }

  /** `go` that pushes a screen which already has an instance keeps the registry consistent. */
  lemma GoReusesInstance(instances: seq<ScreenInstance>, stack: seq<Screen>, screen: Screen)
    requires Consistent(instances, stack) && HasInstance(instances, screen)
    ensures Consistent(instances, stack + [screen])
  {
  }

  /** `go` that pushes a screen without an instance and appends a new one
      for it keeps the registry consistent. */
  lemma GoAddsInstance(instances: seq<ScreenInstance>, stack: seq<Screen>, x: ScreenInstance)
    requires Consistent(instances, stack) && !HasInstance(instances, x.screen)
    ensures Consistent(instances + [x], stack + [x.screen])
  {
    var r := instances + [x];
    assert r[|instances|] == x;
    forall k | 0 <= k < |stack + [x.screen]|
      ensures HasInstance(r, (stack + [x.screen])[k])
    {
      if k < |stack| {
        assert (stack + [x.screen])[k] == stack[k];
        var i :| 0 <= i < |instances| && instances[i].screen == stack[k];
        assert r[i] == instances[i];
      }
    }
    forall i, j | 0 <= i < j < |r|
      ensures r[i].screen != r[j].screen
    {
      if j < |instances| {
        assert r[i] == instances[i] && r[j] == instances[j];
      } else {
        assert r[i] == instances[i];
      }
    }
  }

  /** `pop` keeps the registry consistent. */
  lemma PopKeepsConsistent(instances: seq<ScreenInstance>, stack: seq<Screen>)
    requires |stack| >= 1 && Consistent(instances, stack)
    ensures Consistent(instances, AfterPop(stack))
  {
  }

  /** Dropping the entry at `n` shifts the later entries down by one. */
  lemma DropAt(instances: seq<ScreenInstance>, n: nat)
    requires n < |instances|
    ensures var r := instances[..n] + instances[n + 1..];
      |r| == |instances| - 1 &&
      forall i :: 0 <= i < |r| ==> r[i] == if i < n then instances[i] else instances[i + 1]
  {
  }

  /** Dropping an entry keeps screens unique. */
  lemma DropKeepsUnique(instances: seq<ScreenInstance>, n: nat)
    requires n < |instances| && UniqueScreens(instances)
    ensures UniqueScreens(instances[..n] + instances[n + 1..])
  {
  }

  /** Dropping an entry whose screen is not in the stack keeps the stack covered. */
  lemma DropKeepsCovered(instances: seq<ScreenInstance>, stack: seq<Screen>, n: nat)
    requires n < |instances| && Covers(instances, stack) && instances[n].screen !in stack
    ensures Covers(instances[..n] + instances[n + 1..], stack)
  {
    var r := instances[..n] + instances[n + 1..];
    DropAt(instances, n);
    forall k | 0 <= k < |stack|
      ensures HasInstance(r, stack[k])
    {
      var i :| 0 <= i < |instances| && instances[i].screen == stack[k];
      var i' := if i < n then i else i - 1;
      assert r[i'] == instances[i];
    }
  }

  /** Removing an instance whose screen is not in the stack keeps the
      registry consistent: the sentinel's instance, in particular, stays. */
  lemma DisposeKeepsConsistent(instances: seq<ScreenInstance>, stack: seq<Screen>, x: ScreenInstance)
    requires WellFormed(stack) && Consistent(instances, stack) && !IsInStack(stack, x.screen)
    ensures Consistent(RemoveFirst(instances, x), stack)
  {
    if x in instances {
      var n := IndexOf(instances, x);
      assert n != 0 by {
        assert stack[0] == NullScreen;
      }
      RemoveFirstCutsOut(instances, x);
      DropAt(instances, n);
      DropKeepsUnique(instances, n);
      DropKeepsCovered(instances, stack, n);
    }
  }

  /** At most one registered instance is opened. */
  lemma AtMostOneOpened(instances: seq<ScreenInstance>, stack: seq<Screen>, i: nat, j: nat)
    requires |stack| >= 1 && UniqueScreens(instances)
    requires i < |instances| && j < |instances|
    requires IsOpened(stack, instances[i].screen) && IsOpened(stack, instances[j].screen)
    ensures i == j
  {
  }

  /** In a consistent registry the opened screen has an instance. */
  lemma OpenedHasInstance(instances: seq<ScreenInstance>, stack: seq<Screen>) returns (i: nat)
    requires WellFormed(stack) && Consistent(instances, stack)
    ensures i < |instances| && IsOpened(stack, instances[i].screen)
  {
    assert HasInstance(instances, stack[|stack| - 1]);
    i :| 0 <= i < |instances| && instances[i].screen == stack[|stack| - 1];
  }
}
