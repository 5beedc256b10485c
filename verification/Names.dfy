/** C strings and strcmp(). */
module Names {

  /** The bytes before the terminating zero. */
  type Name = seq<bv8>

  /** strcmp(): the sign is that of the first difference, bytes taken as unsigned. */
  function Compare(a: Name, b: Name): int
    decreases |a|
  {
    if a == [] then (if b == [] then 0 else -1)
    else if b == [] then 1
    else if a[0] != b[0] then (if a[0] < b[0] then -1 else 1)
    else Compare(a[1..], b[1..])
  }

  /** Dictionary order: a proper prefix comes first, and otherwise the lesser byte at the first difference does. */
  ghost predicate Before(a: Name, b: Name) {
    exists k | 0 <= k <= |a| && k < |b| :: a[..k] == b[..k] && (k < |a| ==> a[k] < b[k])
  }

  lemma BeforeAt(a: Name, b: Name, k: nat)
    requires k <= |a| && k < |b| && a[..k] == b[..k] && (k < |a| ==> a[k] < b[k])
    ensures Before(a, b)
  {
  }

  /** A difference in the first byte decides, and an equal first byte does not. */
  lemma BeforeUnfolds(a: Name, b: Name)
    ensures b == [] ==> !Before(a, b)
    ensures a == [] && b != [] ==> Before(a, b)
    ensures a != [] && b != [] && a[0] != b[0] ==> (Before(a, b) <==> a[0] < b[0])
    ensures a != [] && b != [] && a[0] == b[0] ==> (Before(a, b) <==> Before(a[1..], b[1..]))
  {
    if b != [] && a == [] {
      BeforeAt(a, b, 0);
    } else if b != [] && a[0] < b[0] {
      BeforeAt(a, b, 0);
    } else if b != [] && a[0] == b[0] {
      if Before(a, b) {
        BeforeTails(a, b);
      }
      if Before(a[1..], b[1..]) {
        BeforeWholes(a, b);
      }
    }
    if b != [] && a != [] && Before(a, b) && a[0] != b[0] {
      var k :| 0 <= k <= |a| && k < |b| && a[..k] == b[..k] && (k < |a| ==> a[k] < b[k]);
      HeadsAgree(a, b, k);
    }
  }

  lemma HeadsAgree(a: Name, b: Name, k: nat)
    requires k <= |a| && k <= |b| && a[..k] == b[..k]
    ensures k > 0 ==> a[0] == b[0]
  {
    if k > 0 {
      assert a[..k][0] == a[0] && b[..k][0] == b[0];
    }
  }

  lemma BeforeTails(a: Name, b: Name)
    requires a != [] && b != [] && a[0] == b[0] && Before(a, b)
    ensures Before(a[1..], b[1..])
  {
    var k :| 0 <= k <= |a| && k < |b| && a[..k] == b[..k] && (k < |a| ==> a[k] < b[k]);
    assert k > 0;
    SameTails(a, b, k);
    BeforeAt(a[1..], b[1..], k - 1);
  }

  lemma BeforeWholes(a: Name, b: Name)
    requires a != [] && b != [] && a[0] == b[0] && Before(a[1..], b[1..])
    ensures Before(a, b)
  {
    var k :| 0 <= k <= |a[1..]| && k < |b[1..]| && a[1..][..k] == b[1..][..k] && (k < |a[1..]| ==> a[1..][k] < b[1..][k]);
    SameTails(a, b, k + 1);
    BeforeAt(a, b, k + 1);
  }

  lemma SameTails(a: Name, b: Name, k: nat)
    requires 0 < k <= |a| && k <= |b| && a[0] == b[0]
    ensures a[..k] == b[..k] <==> a[1..][..k - 1] == b[1..][..k - 1]
  {
    assert a[..k] == [a[0]] + a[1..][..k - 1] && b[..k] == [b[0]] + b[1..][..k - 1];
    assert a[..k][1..] == a[1..][..k - 1] && b[..k][1..] == b[1..][..k - 1];
  }

  /** strcmp() is negative exactly on names in dictionary order. */
  lemma {:induction false} ComparesAsDictionary(a: Name, b: Name)
    ensures Compare(a, b) < 0 <==> Before(a, b)
    decreases |a|
  {
    hide Before;
    BeforeUnfolds(a, b);
    if a != [] && b != [] && a[0] == b[0] {
      ComparesAsDictionary(a[1..], b[1..]);
    }
  }

  lemma NotAfter(a: Name, b: Name)
    ensures Compare(a, b) <= 0 <==> !Before(b, a)
  {
    hide Compare, Before;
    CompareFlips(a, b);
    ComparesAsDictionary(b, a);
  }

  lemma {:induction false} CompareZero(a: Name, b: Name)
    ensures Compare(a, b) == 0 <==> a == b
    decreases |a|
  {
    if a != [] && b != [] && a[0] == b[0] {
      CompareZero(a[1..], b[1..]);
      assert a == [a[0]] + a[1..] && b == [b[0]] + b[1..];
    }
  }

  lemma {:induction false} CompareFlips(a: Name, b: Name)
    ensures Compare(a, b) > 0 <==> Compare(b, a) < 0
    decreases |a|
  {
    if a != [] && b != [] && a[0] == b[0] {
      CompareFlips(a[1..], b[1..]);
    }
  }

  lemma {:induction false} CompareTransitive(a: Name, b: Name, c: Name)
    requires Compare(a, b) <= 0 && Compare(b, c) <= 0
    ensures Compare(a, c) <= 0
    ensures Compare(a, b) < 0 || Compare(b, c) < 0 ==> Compare(a, c) < 0
    decreases |a|
  {
    if a != [] && b != [] && c != [] && a[0] == b[0] == c[0] {
      CompareTransitive(a[1..], b[1..], c[1..]);
    }
  }
}
