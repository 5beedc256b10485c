/**
 The sort of directory entries in view_directory() of source/forms.c: passes that step back after every swap,
 repeated until a pass swaps nothing.
 */
module DirectorySort {
  import opened Names

  datatype FileInfo = FileInfo(name: Name, isDirectory: bool, stats: int)

  /** The three conditions under which two neighbours are swapped. */
  predicate OutOfOrder(a: FileInfo, b: FileInfo) {
    || (!a.isDirectory && b.isDirectory)
    || (a.isDirectory && b.isDirectory && Compare(a.name, b.name) > 0)
    || (!a.isDirectory && !b.isDirectory && Compare(a.name, b.name) > 0)
  }

  /** All directories before all files, and in each group no name before an earlier one. */
  ghost predicate Listed(s: seq<FileInfo>) {
    forall i, j | 0 <= i < j < |s| ::
      && (s[j].isDirectory ==> s[i].isDirectory)
      && (s[i].isDirectory == s[j].isDirectory ==> !Before(s[j].name, s[i].name))
  }

  /** How many entries of `s` belong before `a`. */
  function Smaller(a: FileInfo, s: seq<FileInfo>): nat {
    if s == [] then 0 else (if OutOfOrder(a, s[0]) then 1 else 0) + Smaller(a, s[1..])
  }

  /** Pairs in the wrong order. */
  function Inversions(s: seq<FileInfo>): nat {
    if s == [] then 0 else Smaller(s[0], s[1..]) + Inversions(s[1..])
  }

  function Swapped(s: seq<FileInfo>, k: nat): seq<FileInfo>
    requires k + 1 < |s|
  {
    s[k := s[k + 1]][k + 1 := s[k]]
  }

  lemma OrderIsAsymmetric(a: FileInfo, b: FileInfo)
    requires OutOfOrder(a, b)
    ensures !OutOfOrder(b, a)
  {
    CompareFlips(a.name, b.name);
  }

  lemma {:induction false} SmallerSwapped(a: FileInfo, s: seq<FileInfo>, k: nat)
    requires k + 1 < |s|
    ensures Smaller(a, Swapped(s, k)) == Smaller(a, s)
    decreases k
  {
    var t := Swapped(s, k);
    if k == 0 {
      assert t[1..][1..] == s[1..][1..];
      assert Smaller(a, t[1..]) == (if OutOfOrder(a, s[0]) then 1 else 0) + Smaller(a, t[1..][1..]);
      assert Smaller(a, s[1..]) == (if OutOfOrder(a, s[1]) then 1 else 0) + Smaller(a, s[1..][1..]);
    } else {
      assert t[1..] == Swapped(s[1..], k - 1);
      SmallerSwapped(a, s[1..], k - 1);
    }
  }

  /** Each swap removes exactly one inversion. */
  lemma {:induction false} SwapRemovesOne(s: seq<FileInfo>, k: nat)
    requires k + 1 < |s| && OutOfOrder(s[k], s[k + 1])
    ensures Inversions(Swapped(s, k)) == Inversions(s) - 1
    decreases k
  {
    var t := Swapped(s, k);
    if k == 0 {
      OrderIsAsymmetric(s[0], s[1]);
      var rest := s[1..][1..];
      assert t[1..] == [s[0]] + rest && s[1..] == [s[1]] + rest;
      assert t[1..][1..] == rest;
      assert Inversions(s) == Smaller(s[0], s[1..]) + (Smaller(s[1], rest) + Inversions(rest));
      assert Inversions(t) == Smaller(s[1], t[1..]) + (Smaller(s[0], rest) + Inversions(rest));
      assert Smaller(s[0], s[1..]) == 1 + Smaller(s[0], rest);
      assert Smaller(s[1], t[1..]) == Smaller(s[1], rest);
    } else {
      assert t[1..] == Swapped(s[1..], k - 1);
      SwapRemovesOne(s[1..], k - 1);
      SmallerSwapped(s[0], s[1..], k - 1);
    }
  }

  lemma SwapKeepsEntries(s: seq<FileInfo>, k: nat)
    requires k + 1 < |s|
    ensures multiset(Swapped(s, k)) == multiset(s)
  {
  }

  lemma InOrderTransitive(a: FileInfo, b: FileInfo, c: FileInfo)
    requires !OutOfOrder(a, b) && !OutOfOrder(b, c)
    ensures !OutOfOrder(a, c)
  {
    if a.isDirectory == b.isDirectory == c.isDirectory {
      CompareTransitive(a.name, b.name, c.name);
    }
  }

  lemma {:induction false} NeighboursSuffice(s: seq<FileInfo>, i: nat, j: nat)
    requires i < j < |s| && forall k | 0 <= k < |s| - 1 :: !OutOfOrder(s[k], s[k + 1])
    ensures !OutOfOrder(s[i], s[j])
    decreases j
  {
    if i + 1 < j {
      NeighboursSuffice(s, i, j - 1);
      InOrderTransitive(s[i], s[j - 1], s[j]);
      assert !OutOfOrder(s[j - 1], s[j - 1 + 1]);
    }
  }

  lemma NeighboursList(s: seq<FileInfo>)
    requires forall k | 0 <= k < |s| - 1 :: !OutOfOrder(s[k], s[k + 1])
    ensures Listed(s)
  {
    hide Before, Compare;
    forall i, j | 0 <= i < j < |s|
      ensures (s[j].isDirectory ==> s[i].isDirectory)
           && (s[i].isDirectory == s[j].isDirectory ==> !Before(s[j].name, s[i].name))
    {
      NeighboursSuffice(s, i, j);
      NotAfter(s[i].name, s[j].name);
    }
  }

  /** swap_file_info() on two neighbours. */
  method SwapFileInfo(list: array<FileInfo>, k: nat)
    requires k + 1 < list.Length
    modifies list
    ensures list[..] == Swapped(old(list[..]), k)
  {
    var temp := list[k];
    list[k] := list[k + 1];
    list[k + 1] := temp;
  }

  /** The sort itself.  The step back is by two, but never below 0, and then the loop steps forward by one. */
  method Sort(list: array<FileInfo>)
    modifies list
    ensures Listed(list[..])
    ensures multiset(list[..]) == multiset(old(list[..]))
  {
    var swaps := 1;
    while swaps > 0
      invariant 0 <= swaps
      invariant multiset(list[..]) == multiset(old(list[..]))
      invariant swaps == 0 ==> forall k | 0 <= k < list.Length - 1 :: !OutOfOrder(list[k], list[k + 1])
      decreases Inversions(list[..]), swaps
    {
      ghost var before := Inversions(list[..]);
      swaps := 0;
      var idx := 0;
      while idx < list.Length - 1
        invariant 0 <= idx && 0 <= swaps
        invariant multiset(list[..]) == multiset(old(list[..]))
        invariant Inversions(list[..]) + swaps == before
        invariant swaps == 0 ==> idx <= list.Length && forall k | 0 <= k < idx && k < list.Length - 1 :: !OutOfOrder(list[k], list[k + 1])
        decreases Inversions(list[..]), list.Length - idx
      {
        if OutOfOrder(list[idx], list[idx + 1]) {
          SwapRemovesOne(list[..], idx);
          SwapKeepsEntries(list[..], idx);
          SwapFileInfo(list, idx);
          swaps := swaps + 1;
          idx := idx - 2;
          if idx < 0 {
            idx := 0;
          }
        }
        idx := idx + 1;
      }
    }
    NeighboursList(list[..]);
  }
}
