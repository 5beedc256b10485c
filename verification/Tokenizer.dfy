/**
 tokenize_command() of source/dialer.c: one pass counts the words of a command line, a second one stores a pointer to
 each and overwrites the separators of its copy with zeros.
 */
module Tokenizer {
  import opened Names

  /** q_isspace(). */
  predicate IsSpace(c: bv8) {
    c == 0x20 || c == 0x0D || c == 0x0A
  }

  predicate IsCString(s: Name) {
    forall k | 0 <= k < |s| :: s[k] != 0
  }

  /** Where the word that `j` is in ends. */
  function WordEnd(s: Name, j: nat): (r: nat)
    requires j <= |s|
    ensures j <= r <= |s| && (r < |s| ==> IsSpace(s[r]))
    ensures forall k | j <= k < r :: !IsSpace(s[k])
    decreases |s| - j
  {
    if j < |s| && !IsSpace(s[j]) then WordEnd(s, j + 1) else j
  }

  function GapEnd(s: Name, j: nat): (r: nat)
    requires j <= |s|
    ensures j <= r <= |s| && (r < |s| ==> !IsSpace(s[r]))
    ensures forall k | j <= k < r :: IsSpace(s[k])
    decreases |s| - j
  {
    if j < |s| && IsSpace(s[j]) then GapEnd(s, j + 1) else j
  }

  /** The starts of the words from `j` on, for a `j` that is not on a space. */
  function Starts(s: Name, j: nat): (r: seq<nat>)
    requires j < |s| ==> !IsSpace(s[j])
    requires j <= |s|
    decreases |s| - j
  {
    if j == |s| then [] else [j] + Starts(s, GapEnd(s, WordEnd(s, j)))
  }

  /** A word starts where a byte that is no space follows a space or nothing. */
  predicate IsStart(s: Name, p: int) {
    0 <= p < |s| && !IsSpace(s[p]) && (p == 0 || IsSpace(s[p - 1]))
  }

  /** The starts are found in order, each once, and none is missed. */
  lemma {:induction false} StartsAreExact(s: Name, j: nat)
    requires j <= |s| && (j < |s| ==> IsStart(s, j))
    ensures forall k | 0 <= k < |Starts(s, j)| :: j <= Starts(s, j)[k] && IsStart(s, Starts(s, j)[k])
    ensures forall k, l | 0 <= k < l < |Starts(s, j)| :: Starts(s, j)[k] < Starts(s, j)[l]
    ensures forall p | j <= p && IsStart(s, p) :: p in Starts(s, j)
    decreases |s| - j
  {
    hide IsSpace;
    if j < |s| {
      var w := WordEnd(s, j);
      var next := GapEnd(s, w);
      assert w > j;
      assert next < |s| ==> next > w && IsSpace(s[next - 1]);
      StartsAreExact(s, next);
      forall p | j < p < next ensures !IsStart(s, p) {
        assert p < w ==> !IsSpace(s[p - 1]);
      }
    }
  }

  /** The pointers of a command line: every place where a word starts, in order and once. */
  lemma PointersAreExact(s: Name)
    ensures forall p :: IsStart(s, p) <==> p in Starts(s, GapEnd(s, 0))
    ensures forall k, l | 0 <= k < l < |Starts(s, GapEnd(s, 0))| ::
      Starts(s, GapEnd(s, 0))[k] < Starts(s, GapEnd(s, 0))[l]
  {
    StartsAreExact(s, GapEnd(s, 0));
  }

  /** The words from `j` on. */
  function TokensFrom(s: Name, j: nat): (r: seq<Name>)
    requires j < |s| ==> !IsSpace(s[j])
    requires j <= |s|
    decreases |s| - j
  {
    if j == |s| then [] else
      var e := WordEnd(s, j);
      [s[j..e]] + TokensFrom(s, GapEnd(s, e))
  }

  /** The words of a command line. */
  function Tokens(s: Name): seq<Name> {
    TokensFrom(s, GapEnd(s, 0))
  }

  /** One word for each start: the run of bytes from it up to the next space. */
  lemma {:induction false} TokensAreRuns(s: Name, j: nat)
    requires j <= |s| && (j < |s| ==> !IsSpace(s[j]))
    ensures |TokensFrom(s, j)| == |Starts(s, j)|
    ensures forall k | 0 <= k < |Starts(s, j)| ::
      && j <= Starts(s, j)[k] < |s|
      && TokensFrom(s, j)[k] == s[Starts(s, j)[k]..WordEnd(s, Starts(s, j)[k])]
    decreases |s| - j
  {
    hide IsSpace;
    if j < |s| {
      var e := WordEnd(s, j);
      var next := GapEnd(s, e);
      TokensAreRuns(s, next);
      var starts, words := Starts(s, next), TokensFrom(s, next);
      assert Starts(s, j) == [j] + starts && TokensFrom(s, j) == [s[j..e]] + words;
      hide Starts, TokensFrom, WordEnd, GapEnd;
      forall k | 0 <= k < |Starts(s, j)|
        ensures j <= Starts(s, j)[k] < |s| && TokensFrom(s, j)[k] == s[Starts(s, j)[k]..WordEnd(s, Starts(s, j)[k])]
      {
        assert k > 0 ==> Starts(s, j)[k] == starts[k - 1] && TokensFrom(s, j)[k] == words[k - 1];
      }
    }
  }

  // ------------------------------------------------------------- joining is undone

  /** A word and the space after it. */
  datatype Item = Item(word: Name, gap: Name)

  predicate AllSpace(s: Name) {
    forall k | 0 <= k < |s| :: IsSpace(s[k])
  }

  predicate IsWord(s: Name) {
    s != [] && forall k | 0 <= k < |s| :: !IsSpace(s[k])
  }

  ghost predicate Joinable(items: seq<Item>) {
    && (forall k | 0 <= k < |items| :: IsWord(items[k].word) && AllSpace(items[k].gap))
    && (forall k | 0 <= k < |items| - 1 :: items[k].gap != [])
  }

  function Joined(items: seq<Item>): Name {
    if items == [] then [] else items[0].word + (items[0].gap + Joined(items[1..]))
  }

  function WordsOf(items: seq<Item>): seq<Name> {
    seq(|items|, k requires 0 <= k < |items| => items[k].word)
  }

  lemma {:induction false} WordEndAt(s: Name, j: nat, e: nat)
    requires j <= e <= |s| && (forall k | j <= k < e :: !IsSpace(s[k])) && (e < |s| ==> IsSpace(s[e]))
    ensures WordEnd(s, j) == e
    decreases e - j
  {
    if j < e {
      WordEndAt(s, j + 1, e);
    }
  }

  lemma {:induction false} GapEndAt(s: Name, j: nat, e: nat)
    requires j <= e <= |s| && (forall k | j <= k < e :: IsSpace(s[k])) && (e < |s| ==> !IsSpace(s[e]))
    ensures GapEnd(s, j) == e
    decreases e - j
  {
    if j < e {
      GapEndAt(s, j + 1, e);
    }
  }

  lemma Middle(before: Name, w: Name, tail: Name)
    ensures (before + (w + tail))[|before|..|before| + |w|] == w
  {
  }

  lemma WordAfter(before: Name, w: Name, tail: Name)
    requires IsWord(w) && (tail != [] ==> IsSpace(tail[0]))
    ensures WordEnd(before + (w + tail), |before|) == |before| + |w|
    ensures w != [] && !IsSpace((before + (w + tail))[|before|])
  {
    hide IsSpace;
    var s := before + (w + tail);
    assert forall k | |before| <= k < |before| + |w| :: s[k] == w[k - |before|];
    WordEndAt(s, |before|, |before| + |w|);
    assert s[|before|] == w[0];
  }

  lemma GapAfter(before: Name, g: Name, tail: Name)
    requires AllSpace(g) && (tail != [] ==> !IsSpace(tail[0]))
    ensures GapEnd(before + (g + tail), |before|) == |before| + |g|
  {
    hide IsSpace;
    var s := before + (g + tail);
    assert forall k | |before| <= k < |before| + |g| :: s[k] == g[k - |before|];
    GapEndAt(s, |before|, |before| + |g|);
  }

  predicate Found(s: Name, j: nat, words: seq<Name>)
    requires j <= |s|
  {
    (j < |s| ==> !IsSpace(s[j])) && TokensFrom(s, j) == words
  }

  lemma FoundStep(s: Name, j: nat, e: nat, next: nat, rest: seq<Name>)
    requires j < e <= next <= |s| && !IsSpace(s[j]) && WordEnd(s, j) == e && GapEnd(s, e) == next
    requires Found(s, next, rest)
    ensures Found(s, j, [s[j..e]] + rest)
  {
  }

  lemma NoWords(s: Name)
    ensures Found(s, |s|, WordsOf([]))
  {
  }

  lemma Regroup(a: Name, b: Name, c: Name)
    ensures a + (b + c) == (a + b) + c
  {
  }

  lemma JoinedHead(items: seq<Item>)
    requires Joinable(items) && items != []
    ensures Joinable(items[1..]) && WordsOf(items) == [items[0].word] + WordsOf(items[1..])
    ensures IsWord(items[0].word) && AllSpace(items[0].gap)
    ensures var tail := Joined(items[1..]);
      (tail != [] ==> !IsSpace(tail[0]) && items[0].gap != [])
      && (items[0].gap + tail != [] ==> IsSpace((items[0].gap + tail)[0]))
  {
    hide IsSpace;
    var rest := items[1..];
    assert forall k | 0 <= k < |rest| :: rest[k] == items[k + 1];
    if rest != [] {
      assert Joined(rest)[0] == rest[0].word[0];
    }
  }

  lemma Positions(before: Name, w: Name, g: Name, tail: Name)
    requires IsWord(w) && AllSpace(g) && (tail != [] ==> !IsSpace(tail[0]))
    requires g + tail != [] ==> IsSpace((g + tail)[0])
    ensures var s, next := before + (w + (g + tail)), (before + w) + g;
      && w != [] && s == next + tail && |next| == |before| + |w| + |g|
      && WordEnd(s, |before|) == |before| + |w| && GapEnd(s, |before| + |w|) == |next|
      && s[|before|..|before| + |w|] == w && !IsSpace(s[|before|])
  {
    hide IsSpace, IsWord, AllSpace, WordEnd, GapEnd;
    Regroup(before, w, g + tail);
    Regroup(before + w, g, tail);
    Middle(before, w, g + tail);
    WordAfter(before, w, g + tail);
    GapAfter(before + w, g, tail);
  }

  /** The first word, once the others are found. */
  lemma FoundFirst(before: Name, w: Name, g: Name, tail: Name, words: seq<Name>)
    requires IsWord(w) && AllSpace(g) && (tail != [] ==> !IsSpace(tail[0]))
    requires g + tail != [] ==> IsSpace((g + tail)[0])
    requires Found(((before + w) + g) + tail, |(before + w) + g|, words)
    ensures Found(before + (w + (g + tail)), |before|, [w] + words)
  {
    hide IsSpace, IsWord, AllSpace, Found, WordEnd, GapEnd;
    Positions(before, w, g, tail);
    FoundStep(before + (w + (g + tail)), |before|, |before| + |w|, |before| + |w| + |g|, words);
  }

  lemma {:induction false} JoinedFrom(before: Name, items: seq<Item>)
    requires Joinable(items)
    ensures Found(before + Joined(items), |before|, WordsOf(items))
    decreases |items|
  {
    hide IsSpace, IsWord, AllSpace, WordsOf, Found, Joinable;
    if items == [] {
      assert before + Joined(items) == before;
      NoWords(before);
    } else {
      var first, rest := items[0], items[1..];
      JoinedHead(items);
      JoinedFrom((before + first.word) + first.gap, rest);
      FoundFirst(before, first.word, first.gap, Joined(rest), WordsOf(rest));
    }
  }

  /** Cutting a command line that was put together from words, with space around and between them, gives the words. */
  lemma CutUndoesJoin(lead: Name, items: seq<Item>)
    requires AllSpace(lead) && Joinable(items)
    ensures Tokens(lead + Joined(items)) == WordsOf(items)
  {
    var s := lead + Joined(items);
    JoinedFrom(lead, items);
    GapEndAt(s, 0, |lead|);
  }

  lemma OneWord(u: Name)
    requires IsWord(u)
    ensures Tokens(u) == [u]
  {
    var items := [Item(u, [])];
    assert items[1..] == [] && Joined(items[1..]) == [];
    assert Joined(items) == u + ([] + []) == u == [] + Joined(items);
    CutUndoesJoin([], items);
    assert WordsOf(items) == [u];
  }

  lemma TwoWords(v: Name, gap: Name, w: Name)
    requires IsWord(v) && IsWord(w) && AllSpace(gap) && gap != []
    ensures Tokens(v + gap + w) == [v, w]
  {
    var items, last := [Item(v, gap), Item(w, [])], [Item(w, [])];
    assert items[1..] == last && last[1..] == [] && Joined([]) == [];
    assert Joined(last) == w + ([] + []) == w;
    assert Joined(items) == v + (gap + w) == v + gap + w == [] + Joined(items);
    CutUndoesJoin([], items);
    assert WordsOf(items) == [v, w];
  }

  /** Exactly a blank, a CR and a LF separate two words; a tab, say, does not. */
  lemma SeparatesExactly(v: Name, c: bv8, w: Name)
    requires IsWord(v) && IsWord(w)
    ensures Tokens(v + [c] + w) == if c as char in " \r\n" then [v, w] else [v + [c] + w]
  {
    SpaceCharacters(c);
    hide IsSpace, Tokens;
    if IsSpace(c) {
      TwoWords(v, [c], w);
    } else {
      OneWord(v + [c] + w);
    }
  }

  lemma SpaceCharacters(c: bv8)
    ensures c as char in " \r\n" <==> IsSpace(c)
  {
    assert c == 0x20 <==> c as char == ' ';
    assert c == 0x0D <==> c as char == '\r';
    assert c == 0x0A <==> c as char == '\n';
  }

  // ------------------------------------------------------------- the two passes

  /** The C string at `p`. */
  function CString(a: seq<bv8>, p: nat): Name
    requires p <= |a|
    decreases |a| - p
  {
    if p == |a| || a[p] == 0 then [] else [a[p]] + CString(a, p + 1)
  }

  /** The copy once the second pass has reached `to`: the spaces between `from` and `to` are zeros. */
  ghost predicate Punched(a: seq<bv8>, s: Name, from: nat, to: nat) {
    && |a| == |s| + 1
    && (forall k | 0 <= k < |s| :: a[k] == if from <= k < to && IsSpace(s[k]) then 0 else s[k])
    && a[|s|] == 0
  }

  lemma {:induction false} CStringIsWord(a: seq<bv8>, s: Name, from: nat, p: nat)
    requires IsCString(s) && Punched(a, s, from, |s|) && from <= p <= |s|
    ensures CString(a, p) == s[p..WordEnd(s, p)]
    decreases |s| - p
  {
    if p < |s| && !IsSpace(s[p]) {
      CStringIsWord(a, s, from, p + 1);
      assert s[p..WordEnd(s, p)] == [s[p]] + s[p + 1..WordEnd(s, p + 1)];
    }
  }

  const NULL := -1

  /** The inner loops of the first pass. */
  method SkipWordAndGap(argv: Name, at: nat) returns (j: nat)
    requires at <= |argv|
    ensures j == GapEnd(argv, WordEnd(argv, at))
  {
    j := at;
    while j < |argv| && !IsSpace(argv[j])
      invariant at <= j <= |argv| && WordEnd(argv, j) == WordEnd(argv, at)
    {
      j := j + 1;
    }
    while j < |argv| && IsSpace(argv[j])
      invariant j <= |argv| && GapEnd(argv, j) == GapEnd(argv, WordEnd(argv, at))
    {
      j := j + 1;
    }
  }

  /** The inner loops of the second pass. */
  method EraseGap(oldArgv: array<bv8>, ghost argv: Name, ghost start: nat, at: nat) returns (j: nat)
    requires start <= at <= |argv| && Punched(oldArgv[..], argv, start, at)
    modifies oldArgv
    ensures j == GapEnd(argv, WordEnd(argv, at))
    ensures Punched(oldArgv[..], argv, start, j)
  {
    var n := oldArgv.Length - 1;
    j := at;
    while j < n && !IsSpace(oldArgv[j])
      invariant at <= j <= n && WordEnd(argv, j) == WordEnd(argv, at)
      invariant Punched(oldArgv[..], argv, start, j)
    {
      j := j + 1;
    }
    while j < n && IsSpace(oldArgv[j])
      invariant at <= j <= n && GapEnd(argv, j) == GapEnd(argv, WordEnd(argv, at))
      invariant Punched(oldArgv[..], argv, start, j)
    {
      oldArgv[j] := 0;
      j := j + 1;
    }
  }

  /** The first pass, which reads the command line only. */
  method CountTokens(argv: Name, start: nat) returns (i: nat)
    requires start <= |argv| && (start < |argv| ==> !IsSpace(argv[start]))
    ensures i == |Starts(argv, start)|
  {
    var j := start;
    i := 0;
    while j < |argv|
      invariant start <= j <= |argv| && (j < |argv| ==> !IsSpace(argv[j]))
      invariant i + |Starts(argv, j)| == |Starts(argv, start)|
      decreases |argv| - j
    {
      assert WordEnd(argv, j) > j;
      j := SkipWordAndGap(argv, j);
      i := i + 1;
    }
  }

  lemma NoMoreStarts(argv: Name)
    ensures Starts(argv, |argv|) == []
  {
  }

  lemma NextStart(argv: Name, j: nat, done: seq<int>, all: seq<int>)
    requires j < |argv| && !IsSpace(argv[j]) && done + Starts(argv, j) == all
    ensures j < GapEnd(argv, WordEnd(argv, j))
    ensures (done + [j]) + Starts(argv, GapEnd(argv, WordEnd(argv, j))) == all
    ensures |done| < |all|
  {
    assert WordEnd(argv, j) > j;
    assert done + Starts(argv, j) == (done + [j]) + Starts(argv, GapEnd(argv, WordEnd(argv, j)));
  }

  /** The second pass: every pointer it stores is inside the array, which has one cell more for the NULL. */
  method StoreTokens(oldArgv: array<bv8>, newArgv: array<int>, argv: Name, start: nat) returns (i: nat)
    requires start <= |argv| && (start < |argv| ==> !IsSpace(argv[start]))
    requires Punched(oldArgv[..], argv, start, start)
    requires newArgv.Length == |Starts(argv, start)| + 1 && newArgv as object != oldArgv as object
    modifies oldArgv, newArgv
    ensures Punched(oldArgv[..], argv, start, |argv|)
    ensures i == |Starts(argv, start)| && newArgv[..i] == Starts(argv, start)
  {
    hide IsSpace, Punched, WordEnd, GapEnd, Starts;
    var n := |argv|;
    var j := start;
    i := 0;
    while j < n
      invariant start <= j <= n && (j < n ==> !IsSpace(argv[j]))
      invariant i < newArgv.Length && newArgv[..i] + Starts(argv, j) == Starts(argv, start)
      invariant Punched(oldArgv[..], argv, start, j)
      decreases n - j
    {
      NextStart(argv, j, newArgv[..i], Starts(argv, start));
      ghost var stored := newArgv[..i] + [j];
      newArgv[i] := j;
      assert newArgv[..i + 1] == stored;
      j := EraseGap(oldArgv, argv, start, j);
      assert newArgv[..i + 1] == stored;
      i := i + 1;
    }
    NoMoreStarts(argv);
  }

  /** tokenize_command(), with offsets into the copy for pointers. */
  method TokenizeCommand(argv: Name) returns (newArgv: array<int>, oldArgv: array<bv8>)
    requires IsCString(argv)
    ensures oldArgv.Length == |argv| + 1 && newArgv.Length == |Tokens(argv)| + 1
    ensures newArgv[..] == Starts(argv, GapEnd(argv, 0)) + [NULL]
    ensures forall k | 0 <= k < |Tokens(argv)| ::
      0 <= newArgv[k] <= |argv| && CString(oldArgv[..], newArgv[k]) == Tokens(argv)[k]
  {
    var n := |argv|;
    oldArgv := new bv8[n + 1](k requires 0 <= k => if k < n then argv[k] else 0);
    var start := 0;
    while start < n && IsSpace(argv[start])
      invariant 0 <= start <= n && GapEnd(argv, start) == GapEnd(argv, 0)
    {
      start := start + 1;
    }
    var count := CountTokens(argv, start);
    newArgv := new int[count + 1];
    var i := StoreTokens(oldArgv, newArgv, argv, start);
    ghost var starts := newArgv[..i];
    newArgv[i] := NULL;
    TokensAreRuns(argv, start);
    forall k | 0 <= k < |Tokens(argv)|
      ensures 0 <= newArgv[k] <= n && CString(oldArgv[..], newArgv[k]) == Tokens(argv)[k]
    {
      assert newArgv[k] == starts[k];
      CStringIsWord(oldArgv[..], argv, start, newArgv[k]);
    }
  }
}
