/** The window list of the terminal client (wirebot/windows.c). */
module Windows {
  import opened Sequences

  datatype Status = Idle | Action | Chat | Highlight

  class Window {
    const wid: nat
    var status: Status

    constructor (wid: nat)
      ensures this.wid == wid && status == Idle
    {
      this.wid := wid;
      status := Idle;
    }
  }

  // ----- Cursor arithmetic over a list of n windows

  function NextIndex(i: nat, n: nat): (r: nat)
    requires i < n
    ensures r < n
  {
    if i == n - 1 then 0 else i + 1
  }

  function PreviousIndex(i: nat, n: nat): (r: nat)
    requires i < n
    ensures r < n
  {
    if i == 0 then n - 1 else i - 1
  }

  lemma {:induction false} NextAndPreviousAreInverse(i: nat, n: nat)
    requires i < n
    ensures PreviousIndex(NextIndex(i, n), n) == i == NextIndex(PreviousIndex(i, n), n)
  {
  }

  /** Where `steps` presses of "next" lead. */
  function Cycled(i: nat, n: nat, steps: nat): (r: nat)
    requires i < n
    ensures r < n
    decreases steps
  {
    if steps == 0 then i else Cycled(NextIndex(i, n), n, steps - 1)
  }

  /** Pressing "next" walks round the list: it meets every window and comes back after n steps. */
  lemma {:induction false} CyclingVisitsEveryWindow(i: nat, n: nat, steps: nat)
    requires i < n && steps <= n
    ensures Cycled(i, n, steps) == if i + steps < n then i + steps else i + steps - n
    decreases steps
  {
    if steps > 0 {
      if i == n - 1 {
        CyclingFromZero(n, steps - 1);
      } else {
        CyclingVisitsEveryWindow(i + 1, n, steps - 1);
      }
    }
  }

  lemma {:induction false} CyclingFromZero(n: nat, steps: nat)
    requires 0 < n && steps < n
    ensures Cycled(0, n, steps) == steps
  {
    if steps > 0 {
      CycledStep(0, n, steps - 1);
      CyclingFromZero(n, steps - 1);
    }
  }

  lemma {:induction false} CycledStep(i: nat, n: nat, steps: nat)
    requires i < n
    ensures Cycled(i, n, steps + 1) == NextIndex(Cycled(i, n, steps), n)
    decreases steps
  {
    if steps > 0 {
      CycledStep(NextIndex(i, n), n, steps - 1);
    }
  }

  /** The windows after index `i`, then those up to it. */
  function Round(windows: seq<Window>, i: nat): (r: seq<Window>)
    requires i < |windows|
    ensures |r| == |windows|
  {
    windows[i + 1..] + windows[..i + 1]
  }

  lemma {:induction false} CycledIsRound(windows: seq<Window>, i: nat, steps: nat)
    requires i < |windows| && steps < |windows|
    ensures windows[Cycled(i, |windows|, steps + 1)] == Round(windows, i)[steps]
  {
    CyclingVisitsEveryWindow(i, |windows|, steps + 1);
  }

  lemma {:induction false} CycledHome(i: nat, n: nat)
    requires i < n
    ensures Cycled(i, n, n) == i
  {
    CyclingVisitsEveryWindow(i, n, n);
  }

  predicate InOrder(windows: seq<Window>) {
    forall j, k :: 0 <= j < k < |windows| ==> windows[j].wid < windows[k].wid
  }

  lemma {:induction false} WithoutKeepsOrder(windows: seq<Window>, i: nat)
    requires InOrder(windows) && i < |windows|
    ensures InOrder(Without(windows, i)) && windows[i] !in Without(windows, i)
    ensures i > 0 ==> Without(windows, i) != [] && Without(windows, i)[0] == windows[0]
  {
  }

  /** The window that becomes current when the window at `i` is closed is never the closed one. */
  lemma {:induction false} NeighbourStays(windows: seq<Window>, i: nat)
    requires i < |windows| && |windows| > 1
    ensures windows[PreviousIndex(i, |windows|)] in Without(windows, i)
  {
    var k := if i == 0 then |windows| - 2 else i - 1;
    assert Without(windows, i)[k] == windows[PreviousIndex(i, |windows|)];
  }

  class WindowList {
    var windows: seq<Window>
    var current: Window
    const console: Window

    /** Console first, window ids strictly increasing, current window listed. */
    predicate Valid()
      reads this
    {
      && windows != [] && windows[0] == console
      && current in windows
      && InOrder(windows)
    }

    /** The index of a listed window. */
    function IndexOf(window: Window): (i: nat)
      requires Valid() && window in windows
      reads this
      ensures i < |windows| && windows[i] == window
      ensures forall k :: 0 <= k < |windows| && windows[k] == window ==> k == i
    {
      var i :| 0 <= i < |windows| && windows[i] == window;
      i
    }

    /** The left neighbour; the last window for the first. */
    function LeftOf(window: Window): Window
      requires Valid() && window in windows
      reads this
    {
      windows[PreviousIndex(IndexOf(window), |windows|)]
    }

    function NextWindow(): Window
      requires Valid()
      reads this
    {
      windows[NextIndex(IndexOf(current), |windows|)]
    }

    function PreviousWindow(): Window
      requires Valid()
      reads this
    {
      windows[PreviousIndex(IndexOf(current), |windows|)]
    }

    constructor ()
      ensures Valid() && fresh(console) && windows == [console] && current == console
      ensures console.wid == 1 && console.status == Idle
    {
      var first := new Window(1);
      console := first;
      windows := [first];
      current := first;
    }

    function NextWid(): (wid: nat)
      reads this
    {
      if |windows| > 0 then windows[|windows| - 1].wid + 1 else 1
    }

    method OpenWindow() returns (window: Window)
      requires Valid()
      modifies this`windows
      ensures Valid() && fresh(window)
      ensures windows == old(windows) + [window]
      ensures forall w :: w in old(windows) ==> w.wid < window.wid
      ensures window.status == Idle
    {
      window := new Window(NextWid());
      windows := windows + [window];
    }

    method ShowWindow(window: Window)
      requires window in windows
      modifies this`current, window`status
      ensures current == window
      ensures window.status == if old(current) == window then old(window.status) else Idle
    {
      if current != window {
        current := window;
        current.status := Idle;
      }
    }

    /** Closes a listed window; its left neighbour becomes current, whichever window was current
        before. The list stays well formed exactly when the closed window is not the console. */
    method CloseWindow(window: Window)
      requires Valid() && window in windows
      modifies this`windows, this`current, LeftOf(window)`status
      ensures Valid() <==> window != console
      ensures windows == Without(old(windows), old(IndexOf(window)))
      ensures current == old(LeftOf(window))
      ensures forall i :: 0 <= i < |old(windows)| && old(windows)[i] == window ==>
                current == if i == 0 then old(windows)[|old(windows)| - 1] else old(windows)[i - 1]
      ensures current.status == if old(current) == current then old(current.status) else Idle
      ensures window !in windows
      ensures |old(windows)| > 1 ==> current in windows && current != window
    {
      var index := IndexOf(window);
      var previousIndex;
      if index == 0 {
        previousIndex := |windows| - 1;
      } else {
        previousIndex := index - 1;
      }
      WithoutKeepsOrder(windows, index);
      if |windows| > 1 {
        NeighbourStays(windows, index);
      }
      ShowWindow(windows[previousIndex]);
      windows := windows[..index] + windows[index + 1..];
    }

    method ShowNext()
      requires Valid()
      modifies this`current, NextWindow()`status
      ensures Valid() && windows == old(windows)
      ensures IndexOf(current) == NextIndex(old(IndexOf(current)), |windows|)
      ensures |windows| > 1 ==> current.status == Idle
    {
      var index := IndexOf(current);
      var nextIndex := if index == |windows| - 1 then 0 else index + 1;
      if index != nextIndex {
        ShowWindow(windows[nextIndex]);
      }
    }

    method ShowPrevious()
      requires Valid()
      modifies this`current, PreviousWindow()`status
      ensures Valid() && windows == old(windows)
      ensures IndexOf(current) == PreviousIndex(old(IndexOf(current)), |windows|)
      ensures |windows| > 1 ==> current.status == Idle
    {
      var index := IndexOf(current);
      var previousIndex := if index == 0 then |windows| - 1 else index - 1;
      if index != previousIndex {
        ShowWindow(windows[previousIndex]);
      }
    }

    /** Pressing "next" and then "previous", or the other way round, returns to the same window. */
    method ShowNextThenPrevious(nextFirst: bool)
      requires Valid()
      modifies this`current, windows
      ensures Valid() && windows == old(windows) && current == old(current)
    {
      NextAndPreviousAreInverse(IndexOf(current), |windows|);
      if nextFirst {
        ShowNext();
        ShowPrevious();
      } else {
        ShowPrevious();
        ShowNext();
      }
    }

    /** One more press of "next" after `steps` presses from the window at `i`. */
    method ShowNextAfter(ghost i: nat, ghost steps: nat) returns (window: Window)
      requires Valid() && i < |windows| && steps < |windows| && IndexOf(current) == Cycled(i, |windows|, steps)
      modifies this`current, NextWindow()`status
      ensures Valid() && windows == old(windows)
      ensures IndexOf(current) == Cycled(i, |windows|, steps + 1) && window == Round(windows, i)[steps]
    {
      ShowNext();
      CycledStep(i, |windows|, steps);
      CycledIsRound(windows, i, steps);
      window := current;
    }

    /** As many presses of "next" as there are windows show every window once, round the list from
        the one after the current, and end where they began. */
    method CycleThrough() returns (shown: seq<Window>)
      requires Valid()
      modifies this`current, windows
      ensures Valid() && windows == old(windows) && current == old(current)
      ensures shown == Round(windows, old(IndexOf(current)))
    {
      ghost var i, round := IndexOf(current), Round(windows, IndexOf(current));
      var list := windows;
      shown := [];
      for steps := 0 to |list|
        invariant Valid() && windows == list
        invariant IndexOf(current) == Cycled(i, |list|, steps)
        invariant shown == round[..steps]
      {
        var window := ShowNextAfter(i, steps);
        TakeOneMore(round, steps);
        shown := shown + [window];
      }
      CycledHome(i, |windows|);
      assert current == windows[i] && round[..|round|] == round;
    }

    /** Closes every window but the console. The loop edits its own index and bound; it only
        ever shows the console, so no other window is touched. */
    method Clear()
      requires Valid()
      modifies this`windows, this`current, console`status
      ensures Valid() && windows == [console] && current == console
      ensures console.status == if old(current) == console then old(console.status) else Idle
    {
      var count := |windows|;
      var i := 0;
      while i < count
        invariant Valid() && count == |windows|
        invariant i <= 1 && i <= count
        invariant current == old(current) || current == console
        invariant console.status ==
                  if old(current) == console || current != console then old(console.status) else Idle
        decreases count - i
      {
        var window := windows[i];
        if window != console {
          assert IndexOf(window) == i;
          CloseWindow(window);
          i := i - 1;
          count := count - 1;
        }
        i := i + 1;
      }
      ShowWindow(console);
    }
  }
}
