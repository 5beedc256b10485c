/** build_help_index() of source/help.c: gather the keys of all links and topics, sort, drop repeats, filter. */
module HelpIndex {
  import opened Names

  datatype Option<T> = None | Some(value: T)

  datatype Topic = Topic(key: Name, title: seq<int>, links: seq<Name>)

  datatype Link = Link(key: Name, title: seq<int>, line: nat)

  const HELP_NOP_KEY: Name := [0x48, 0x45, 0x4C, 0x50, 0x5F, 0x4E, 0x4F, 0x50]
  const HELP_INDEX_KEY: Name := [0x48, 0x45, 0x4C, 0x50, 0x5F, 0x49, 0x4E, 0x44, 0x45, 0x58]
  const INDEX_TITLE: seq<int> := [0x49, 0x6E, 0x64, 0x65, 0x78]

  predicate HasTopic(topics: seq<Topic>, key: Name) {
    exists k | 0 <= k < |topics| :: topics[k].key == key
  }

  /** Some topic links to `key`. */
  predicate HasLink(topics: seq<Topic>, key: Name) {
    exists k | 0 <= k < |topics| :: key in topics[k].links
  }

  ghost predicate Sorted(s: seq<Name>) {
    forall i, j | 0 <= i < j < |s| :: !Before(s[j], s[i])
  }

  ghost predicate Ascending(s: seq<Name>) {
    forall i, j | 0 <= i < j < |s| :: Before(s[i], s[j])
  }

  // ------------------------------------------------------------- find_topic()

  /** The first topic with this key. */
  ghost predicate IsFirst(topics: seq<Topic>, key: Name, t: Topic) {
    exists k | 0 <= k < |topics| ::
      topics[k] == t && t.key == key && forall l | 0 <= l < k :: topics[l].key != key
  }

  method FindTopic(topics: seq<Topic>, key: Name) returns (r: Option<Topic>)
    ensures r.Some? <==> HasTopic(topics, key)
    ensures r.Some? ==> IsFirst(topics, key, r.value)
  {
    var k := 0;
    while k < |topics|
      invariant 0 <= k <= |topics|
      invariant forall l | 0 <= l < k :: topics[l].key != key
    {
      CompareZero(topics[k].key, key);
      if Compare(topics[k].key, key) == 0 {
        return Some(topics[k]);
      }
      k := k + 1;
    }
    return None;
  }

  // ------------------------------------------------------------- gathering

  method Gather(topics: seq<Topic>) returns (keys: seq<Name>)
    ensures forall key :: key in keys <==> HasTopic(topics, key) || HasLink(topics, key)
  {
    keys := [];
    var t := 0;
    while t < |topics|
      invariant 0 <= t <= |topics|
      invariant forall key :: key in keys <==> HasTopic(topics[..t], key) || HasLink(topics[..t], key)
    {
      ghost var before := keys;
      var i := 0;
      while i < |topics[t].links|
        invariant 0 <= i <= |topics[t].links| && keys == before + topics[t].links[..i]
      {
        keys := keys + [topics[t].links[i]];
        i := i + 1;
      }
      keys := keys + [topics[t].key];
      GatherOne(topics, t);
      assert keys == before + topics[t].links + [topics[t].key];
      t := t + 1;
    }
    assert topics[..t] == topics;
  }

  lemma GatherOne(topics: seq<Topic>, t: nat)
    requires t < |topics|
    ensures forall key :: HasTopic(topics[..t + 1], key) <==> HasTopic(topics[..t], key) || topics[t].key == key
    ensures forall key :: HasLink(topics[..t + 1], key) <==> HasLink(topics[..t], key) || key in topics[t].links
  {
    var s, u := topics[..t], topics[..t + 1];
    assert u == s + [topics[t]];
    forall key ensures HasTopic(u, key) <==> HasTopic(s, key) || topics[t].key == key {
      if HasTopic(s, key) {
        var k :| 0 <= k < |s| && s[k].key == key;
        assert u[k].key == key;
      }
      if topics[t].key == key {
        assert u[t].key == key;
      }
    }
    forall key ensures HasLink(u, key) <==> HasLink(s, key) || key in topics[t].links {
      if HasLink(s, key) {
        var k :| 0 <= k < |s| && key in s[k].links;
        assert key in u[k].links;
      }
      if key in topics[t].links {
        assert key in u[t].links;
      }
    }
  }

  // ------------------------------------------------------------- the sort

  method Exchange(keys: array<Name>, i: nat, j: nat)
    requires i < keys.Length && j < keys.Length
    modifies keys
    ensures keys[..] == old(keys[..])[i := old(keys[j])][j := old(keys[i])]
    ensures multiset(keys[..]) == multiset(old(keys[..]))
  {
    var link, link2 := keys[i], keys[j];
    keys[i] := link2;
    keys[j] := link;
  }

  lemma CompareTotal(a: Name, b: Name)
    ensures Compare(a, b) > 0 ==> Compare(b, a) <= 0
    ensures Compare(a, a) == 0
  {
    CompareFlips(a, b);
    CompareZero(a, a);
  }

  /** The first `i` keys are in their places. */
  ghost predicate Placed(s: seq<Name>, i: nat) {
    forall a, b | 0 <= a < i && a < b < |s| :: Compare(s[a], s[b]) <= 0
  }

  /** The key at `i` is the least from there up to `j`. */
  ghost predicate Least(s: seq<Name>, i: nat, j: nat)
    requires i < |s| && j <= |s|
  {
    forall b | i <= b < j :: Compare(s[i], s[b]) <= 0
  }

  lemma ExchangeOrders(s: seq<Name>, i: nat, j: nat)
    requires i <= j < |s| && Placed(s, i) && Least(s, i, j) && Compare(s[i], s[j]) > 0
    ensures var t := s[i := s[j]][j := s[i]]; Placed(t, i) && Least(t, i, j + 1)
  {
    hide Compare;
    var t := s[i := s[j]][j := s[i]];
    CompareTotal(s[i], s[i]);
    CompareTotal(s[i], s[j]);
    CompareTotal(s[j], s[j]);
    forall b | i <= b < j + 1 ensures Compare(t[i], t[b]) <= 0 {
      if i < b < j {
        CompareTransitive(s[j], s[i], s[b]);
      }
    }
  }

  /** The in-place sort: an exchange sort that starts each inner pass at `i` itself. */
  method Sort(keys: array<Name>)
    modifies keys
    ensures Sorted(keys[..])
    ensures multiset(keys[..]) == multiset(old(keys[..]))
  {
    hide Compare, Before;
    var n := keys.Length;
    var i := 0;
    while i < n
      invariant 0 <= i <= n
      invariant multiset(keys[..]) == multiset(old(keys[..]))
      invariant Placed(keys[..], i)
    {
      PassOver(keys, i);
      i := i + 1;
    }
    PlacedIsSorted(keys[..]);
  }

  /** One inner pass. */
  method PassOver(keys: array<Name>, i: nat)
    requires i < keys.Length && Placed(keys[..], i)
    modifies keys
    ensures Placed(keys[..], i + 1)
    ensures multiset(keys[..]) == multiset(old(keys[..]))
  {
    hide Compare, Placed, Least;
    var j := i;
    LeastStarts(keys[..], i);
    while j < keys.Length
      invariant i <= j <= keys.Length
      invariant multiset(keys[..]) == multiset(old(keys[..]))
      invariant Placed(keys[..], i) && Least(keys[..], i, j)
    {
      if Compare(keys[i], keys[j]) > 0 {
        ExchangeOrders(keys[..], i, j);
        Exchange(keys, i, j);
      } else {
        LeastGrows(keys[..], i, j);
      }
      j := j + 1;
    }
    PlacedGrows(keys[..], i);
  }

  lemma LeastStarts(s: seq<Name>, i: nat)
    requires i < |s|
    ensures Least(s, i, i)
  {
  }

  lemma LeastGrows(s: seq<Name>, i: nat, j: nat)
    requires i < |s| && j < |s| && Least(s, i, j) && Compare(s[i], s[j]) <= 0
    ensures Least(s, i, j + 1)
  {
  }

  lemma PlacedIsSorted(s: seq<Name>)
    requires Placed(s, |s|)
    ensures Sorted(s)
  {
    hide Before, Compare;
    forall i, j | 0 <= i < j < |s| ensures !Before(s[j], s[i]) {
      NotAfter(s[i], s[j]);
    }
  }

  lemma PlacedGrows(s: seq<Name>, i: nat)
    requires i < |s| && Placed(s, i) && Least(s, i, |s|)
    ensures Placed(s, i + 1)
  {
  }

  // ------------------------------------------------------------- uniq

  /** memmove() of everything after cell `i`, one cell down. */
  method CloseUp(keys: array<Name>, i: nat, n: nat)
    requires i < n <= keys.Length
    modifies keys
    ensures keys[..n - 1] == old(keys[..i]) + old(keys[i + 1..n])
  {
    forall k | i <= k < n - 1 {
      keys[k] := keys[k + 1];
    }
  }

  ghost predicate SameKeys(a: seq<Name>, b: seq<Name>) {
    forall key :: key in a <==> key in b
  }

  /** Strictly up, as far as `i`. */
  ghost predicate Climbs(s: seq<Name>, i: nat) {
    forall k | 0 <= k < i && k + 1 < |s| :: Compare(s[k], s[k + 1]) < 0
  }

  lemma DropRepeat(s: seq<Name>, i: nat)
    requires i + 1 < |s| && Sorted(s) && s[i] == s[i + 1] && Climbs(s, i)
    ensures var t := s[..i] + s[i + 1..]; Sorted(t) && SameKeys(t, s) && Climbs(t, i)
  {
    hide Before, Compare;
    var t := s[..i] + s[i + 1..];
    forall key ensures key in t <==> key in s {
      if key in s {
        var k :| 0 <= k < |s| && s[k] == key;
        assert k < i ==> t[k] == key;
        assert k == i ==> t[i] == key;
        assert k > i ==> t[k - 1] == key;
      }
    }
  }

  lemma ClimbsStart(s: seq<Name>)
    ensures Climbs(s, 0)
  {
  }

  lemma ClimbsOn(s: seq<Name>, i: nat)
    requires i + 1 < |s| && Sorted(s) && Climbs(s, i) && Compare(s[i], s[i + 1]) != 0
    ensures Climbs(s, i + 1)
  {
    hide Before, Compare;
    NotAfter(s[i], s[i + 1]);
  }

  lemma ClimbsAll(s: seq<Name>, i: nat)
    requires Climbs(s, i) && i + 1 >= |s|
    ensures Ascending(s)
  {
    hide Before, Compare;
    forall a, b | 0 <= a < b < |s| ensures Before(s[a], s[b]) {
      NeighboursAscend(s, a, b);
      ComparesAsDictionary(s[a], s[b]);
    }
  }

  lemma {:induction false} NeighboursAscend(s: seq<Name>, i: nat, j: nat)
    requires i < j < |s| && forall k | 0 <= k < |s| - 1 :: Compare(s[k], s[k + 1]) < 0
    ensures Compare(s[i], s[j]) < 0
    decreases j
  {
    assert Compare(s[j - 1], s[j - 1 + 1]) < 0;
    if i + 1 < j {
      NeighboursAscend(s, i, j - 1);
      CompareTransitive(s[i], s[j - 1], s[j]);
    }
  }

  /** The in-place uniq, on a shrinking array and with an index that stays where it is on a repeat. */
  method Uniq(keys: array<Name>) returns (n: int)
    requires Sorted(keys[..])
    modifies keys
    ensures 0 <= n <= keys.Length && Ascending(keys[..n])
    ensures SameKeys(keys[..n], old(keys[..]))
  {
    hide Compare, Sorted, Ascending, Climbs;
    n := keys.Length;
    assert keys[..n] == keys[..];
    var i := 0;
    ClimbsStart(keys[..n]);
    while i < n - 1
      invariant 0 <= i && 0 <= n <= keys.Length && (n > 0 ==> i < n)
      invariant Sorted(keys[..n]) && Climbs(keys[..n], i)
      invariant SameKeys(keys[..n], old(keys[..]))
      decreases n - i
    {
      ghost var s := keys[..n];
      CompareZero(keys[i], keys[i + 1]);
      if Compare(keys[i], keys[i + 1]) == 0 {
        DropRepeat(s, i);
        CloseUp(keys, i, n);
        n := n - 1;
        assert keys[..n] == s[..i] + s[i + 1..];
        if i >= 0 {
          i := i - 1;
        }
      } else {
        ClimbsOn(s, i);
      }
      i := i + 1;
    }
    ClimbsAll(keys[..n], i);
  }

  // ------------------------------------------------------------- the index

  /** A key that gets a link: it is not the NOP topic, something links to it or it is a topic, and it can be found. */
  ghost predicate Wanted(topics: seq<Topic>, key: Name) {
    && key != HELP_NOP_KEY
    && (HasTopic(topics, key) || (key == HELP_INDEX_KEY && HasLink(topics, key)))
  }

  /** The topics once new_topic() has put the index before them. */
  function WithIndex(topics: seq<Topic>): seq<Topic> {
    [Topic(HELP_INDEX_KEY, INDEX_TITLE, [])] + topics
  }

  lemma WithIndexHas(topics: seq<Topic>, key: Name)
    ensures HasTopic(WithIndex(topics), key) <==> HasTopic(topics, key) || key == HELP_INDEX_KEY
  {
    var all := WithIndex(topics);
    if HasTopic(topics, key) {
      var k :| 0 <= k < |topics| && topics[k].key == key;
      assert all[k + 1].key == key;
    }
    assert all[0].key == HELP_INDEX_KEY;
  }

  /** The index of the wanted ones among `keys`. */
  ghost predicate IsIndex(topics: seq<Topic>, keys: seq<Name>, links: seq<Link>) {
    && (forall a, b | 0 <= a < b < |links| :: Before(links[a].key, links[b].key))
    && (forall a | 0 <= a < |links| :: links[a].line == a && links[a].key in keys)
    && (forall a | 0 <= a < |links| :: Wanted(topics, links[a].key) && Titled(topics, links[a]))
    && (forall key | key in keys && Wanted(topics, key) :: Indexed(links, key))
  }

  ghost predicate Indexed(links: seq<Link>, key: Name) {
    exists a | 0 <= a < |links| :: links[a].key == key
  }

  /** The title is that of the topic that the key finds. */
  ghost predicate Titled(topics: seq<Topic>, l: Link) {
    exists t :: IsFirst(WithIndex(topics), l.key, t) && l.title == t.title
  }

  lemma IndexGrows(topics: seq<Topic>, keys: seq<Name>, key: Name, links: seq<Link>, l: Link)
    requires IsIndex(topics, keys, links) && Ascending(keys + [key])
    requires l.key == key && l.line == |links| && Titled(topics, l) && Wanted(topics, key)
    ensures IsIndex(topics, keys + [key], links + [l])
  {
    hide Before, Wanted, Titled;
    var more := links + [l];
    forall a | 0 <= a < |links| ensures Before(links[a].key, key) {
      var k :| 0 <= k < |keys| && keys[k] == links[a].key;
      assert (keys + [key])[k] == links[a].key;
      assert (keys + [key])[|keys|] == key;
    }
    forall k | k in keys + [key] && Wanted(topics, k) ensures Indexed(more, k) {
      if k == key {
        assert more[|links|].key == key;
      } else {
        var a :| 0 <= a < |links| && links[a].key == k;
        assert more[a].key == k;
      }
    }
  }

  lemma IndexSkips(topics: seq<Topic>, keys: seq<Name>, key: Name, links: seq<Link>)
    requires IsIndex(topics, keys, links) && !Wanted(topics, key)
    ensures IsIndex(topics, keys + [key], links)
  {
    hide Before, Wanted, Titled, Indexed;
  }

  /** The keys of all links and topics, each once and in order. */
  method CollectKeys(topics: seq<Topic>) returns (keys: seq<Name>)
    ensures Ascending(keys)
    ensures forall key :: key in keys <==> HasTopic(topics, key) || HasLink(topics, key)
  {
    hide Before, Compare;
    var gathered := Gather(topics);
    var links := new Name[|gathered|](k requires 0 <= k < |gathered| => gathered[k]);
    assert links[..] == gathered;
    Sort(links);
    SameMembers(gathered, links[..]);
    var n := Uniq(links);
    keys := links[..n];
  }

  /**
   build_help_index(): one link for each wanted key, in strictly increasing order of keys and on successive lines,
   with the title of the topic that the key finds.
   */
  method BuildHelpIndex(topics: seq<Topic>) returns (links: seq<Link>)
    requires !HasTopic(topics, HELP_INDEX_KEY)
    ensures forall a, b | 0 <= a < b < |links| :: Before(links[a].key, links[b].key)
    ensures forall key :: Wanted(topics, key) <==> Indexed(links, key)
    ensures forall a | 0 <= a < |links| :: links[a].line == a && Titled(topics, links[a])
  {
    hide Before, Compare, IsIndex, Titled, Ascending, HasTopic, HasLink, IsFirst;
    var keys := CollectKeys(topics);
    links := [];
    var lineNumber := 0;
    var i := 0;
    IndexStarts(topics);
    while i < |keys|
      invariant 0 <= i <= |keys| && lineNumber == |links|
      invariant IsIndex(topics, keys[..i], links)
    {
      CompareZero(keys[i], HELP_NOP_KEY);
      WithIndexHas(topics, keys[i]);
      assert keys[..i + 1] == keys[..i] + [keys[i]];
      AscendingPrefix(keys, i + 1);
      if Compare(keys[i], HELP_NOP_KEY) == 0 {
        IndexSkips(topics, keys[..i], keys[i], links);
      } else {
        var topic := FindTopic(WithIndex(topics), keys[i]);
        if topic.Some? {
          var l := Link(keys[i], topic.value.title, lineNumber);
          TitledBy(topics, l, topic.value);
          IndexGrows(topics, keys[..i], keys[i], links, l);
          links := links + [l];
          lineNumber := lineNumber + 1;
        } else {
          IndexSkips(topics, keys[..i], keys[i], links);
        }
      }
      i := i + 1;
    }
    assert keys[..i] == keys;
    IndexDone(topics, keys, links);
  }

  lemma IndexStarts(topics: seq<Topic>)
    ensures IsIndex(topics, [], [])
  {
  }

  lemma AscendingPrefix(keys: seq<Name>, n: nat)
    requires n <= |keys| && Ascending(keys)
    ensures Ascending(keys[..n])
  {
  }

  lemma TitledBy(topics: seq<Topic>, l: Link, t: Topic)
    requires IsFirst(WithIndex(topics), l.key, t) && l.title == t.title
    ensures Titled(topics, l)
  {
  }

  lemma IndexDone(topics: seq<Topic>, keys: seq<Name>, links: seq<Link>)
    requires IsIndex(topics, keys, links)
    requires forall key :: key in keys <==> HasTopic(topics, key) || HasLink(topics, key)
    ensures forall a, b | 0 <= a < b < |links| :: Before(links[a].key, links[b].key)
    ensures forall key :: Wanted(topics, key) <==> Indexed(links, key)
    ensures forall a | 0 <= a < |links| :: links[a].line == a && Titled(topics, links[a])
  {
    hide Before, Titled;
  }

  lemma SameMembers(a: seq<Name>, b: seq<Name>)
    requires multiset(a) == multiset(b)
    ensures forall x :: x in a <==> x in b
  {
    forall x ensures x in a <==> x in b {
      assert x in a <==> x in multiset(a);
    }
  }
}
