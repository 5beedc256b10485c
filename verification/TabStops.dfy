/** The tab stops of source/atascii.c: an array that is kept in increasing order, against a set of columns. */
module TabStops {

  predicate Increasing(s: seq<int>) {
    forall i, j | 0 <= i < j < |s| :: s[i] < s[j]
  }

  function Elements(s: seq<int>): set<int> {
    set x | x in s
  }

  datatype Change = Reset(width: int) | SetHere(cursor: int) | ClearHere(cursor: int)

  /** The columns after a change, as a set. */
  function Apply(columns: set<int>, c: Change): set<int> {
    match c
    case Reset(width) => set k | 0 <= k < width && k % 8 == 0
    case SetHere(cursor) => columns + {cursor}
    case ClearHere(cursor) => columns - {cursor}
  }

  function After(columns: set<int>, changes: seq<Change>): set<int>
    decreases |changes|
  {
    if changes == [] then columns else After(Apply(columns, changes[0]), changes[1..])
  }

  /** Where a tab goes: the nearest stop to the right, or the last column. */
  ghost predicate IsTabTarget(columns: set<int>, cursor: int, width: int, target: int) {
    if exists x :: x in columns && x > cursor then
      target in columns && target > cursor && forall x | x in columns && x > cursor :: target <= x
    else
      target == width - 1
  }

  lemma LastColumn(s: seq<int>)
    requires Increasing(s)
    ensures s == [] <==> Elements(s) == {}
    ensures s != [] ==> s[|s| - 1] in Elements(s) && forall x | x in Elements(s) :: x <= s[|s| - 1]
    ensures s != [] ==> Elements(s[..|s| - 1]) == Elements(s) - {s[|s| - 1]}
  {
    if s != [] {
      assert s[|s| - 1] in Elements(s);
      assert s == s[..|s| - 1] + [s[|s| - 1]];
    }
  }

  /** An increasing array is determined by its columns. */
  lemma {:induction false} SameColumns(s: seq<int>, t: seq<int>)
    requires Increasing(s) && Increasing(t) && Elements(s) == Elements(t)
    ensures s == t
    decreases |s|
  {
    LastColumn(s);
    LastColumn(t);
    if s != [] {
      SameColumns(s[..|s| - 1], t[..|t| - 1]);
      assert s == s[..|s| - 1] + [s[|s| - 1]] && t == t[..|t| - 1] + [t[|t| - 1]];
    }
  }

  class Tabs {
    var tabStops: seq<int>
    var cursorX: int

    /** An array that was never allocated is the empty one. */
    constructor ()
      ensures tabStops == []
    {
      tabStops := [];
      cursorX := 0;
    }

    /** reset_tab_stops(). */
    method ResetTabStops(width: int)
      modifies this`tabStops
      ensures Increasing(tabStops)
      ensures Elements(tabStops) == Apply(old(Elements(tabStops)), Reset(width))
    {
      tabStops := [];
      var i := 0;
      while i * 8 < width
        invariant 0 <= i && |tabStops| == i && (i > 0 ==> (i - 1) * 8 < width)
        invariant forall k | 0 <= k < i :: tabStops[k] == k * 8
      {
        tabStops := tabStops + [i * 8];
        i := i + 1;
      }
      forall k | 0 <= k < width && k % 8 == 0 ensures k in tabStops {
        assert tabStops[k / 8] == k;
      }
    }

    /** set_tab_stop(). */
    method SetTabStop()
      requires Increasing(tabStops)
      modifies this`tabStops
      ensures Increasing(tabStops)
      ensures Elements(tabStops) == Apply(old(Elements(tabStops)), SetHere(cursorX))
    {
      var i := 0;
      while i < |tabStops|
        invariant 0 <= i <= |tabStops| && tabStops == old(tabStops)
        invariant forall k | 0 <= k < i :: tabStops[k] < cursorX
      {
        if tabStops[i] == cursorX {
          return;
        }
        if tabStops[i] > cursorX {
          tabStops := tabStops[..i] + [cursorX] + tabStops[i..];
          assert old(tabStops) == old(tabStops)[..i] + old(tabStops)[i..];
          return;
        }
        i := i + 1;
      }
      tabStops := tabStops + [cursorX];
    }

    /** clear_tab_stop(). */
    method ClearTabStop()
      requires Increasing(tabStops)
      modifies this`tabStops
      ensures Increasing(tabStops)
      ensures Elements(tabStops) == Apply(old(Elements(tabStops)), ClearHere(cursorX))
    {
      var i := 0;
      while i < |tabStops|
        invariant 0 <= i <= |tabStops| && tabStops == old(tabStops)
        invariant forall k | 0 <= k < i :: tabStops[k] < cursorX
      {
        if tabStops[i] > cursorX {
          return;
        }
        if tabStops[i] == cursorX {
          tabStops := tabStops[..i] + tabStops[i + 1..];
          assert old(tabStops) == old(tabStops)[..i] + [cursorX] + old(tabStops)[i + 1..];
          return;
        }
        i := i + 1;
      }
    }

    /** advance_to_next_tab_stop(): how far cursor_right() is told to move. */
    method AdvanceToNextTabStop(width: int) returns (count: int)
      requires Increasing(tabStops)
      ensures IsTabTarget(Elements(tabStops), cursorX, width, cursorX + count)
    {
      var i := 0;
      while i < |tabStops|
        invariant 0 <= i <= |tabStops|
        invariant forall k | 0 <= k < i :: tabStops[k] <= cursorX
      {
        if tabStops[i] > cursorX {
          assert tabStops[i] in Elements(tabStops);
          return tabStops[i] - cursorX;
        }
        i := i + 1;
      }
      return width - 1 - cursorX;
    }
  }

  /** Every history of changes leaves the columns of the set model, each once and in order. */
  method Follow(tabs: Tabs, changes: seq<Change>)
    requires Increasing(tabs.tabStops)
    modifies tabs
    ensures Increasing(tabs.tabStops)
    ensures Elements(tabs.tabStops) == After(old(Elements(tabs.tabStops)), changes)
  {
    var k := 0;
    while k < |changes|
      invariant 0 <= k <= |changes| && Increasing(tabs.tabStops)
      invariant After(Elements(tabs.tabStops), changes[k..]) == After(old(Elements(tabs.tabStops)), changes)
    {
      assert changes[k..][1..] == changes[k + 1..];
      match changes[k] {
        case Reset(width) => tabs.ResetTabStops(width);
        case SetHere(cursor) => tabs.cursorX := cursor; tabs.SetTabStop();
        case ClearHere(cursor) => tabs.cursorX := cursor; tabs.ClearTabStop();
      }
      k := k + 1;
    }
  }
}
