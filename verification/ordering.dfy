/** The order Python's `sorted` puts file names in: `str` comparison, which is
    lexicographic on code points with a proper prefix first. The module gives
    the order's laws, an insertion sort, and the fact that a sorted
    rearrangement of a list is unique.
 */
module Ordering {

  /** Python's `a <= b` on `str`: a prefix comes first, and otherwise the
      first differing code point decides. */
  predicate Below(a: string, b: string)
    decreases |a|
  {
    |a| == 0 || (|b| > 0 && (a[0] < b[0] || (a[0] == b[0] && Below(a[1..], b[1..]))))
  }

  /** A prefix comes first. */
  lemma {:induction false} BelowPrefix(a: string, b: string)
    requires |a| <= |b| && b[..|a|] == a
    ensures Below(a, b)
    decreases |a|
  {
    if |a| > 0 {
      assert b[1..][..|a| - 1] == a[1..];
      BelowPrefix(a[1..], b[1..]);
    }
  }

  /** Otherwise the first differing code point decides: after a common
      prefix of length k, a larger code point in `a` puts `a` above `b`. */
  lemma {:induction false} BelowFirstDifference(a: string, b: string, k: nat)
    requires k < |a| && k < |b| && a[..k] == b[..k] && a[k] > b[k]
    ensures !Below(a, b)
    decreases k
  {
    if k > 0 {
      assert a[0] == a[..k][0] == b[..k][0] == b[0];
      assert a[1..][..k - 1] == a[..k][1..];
      assert b[1..][..k - 1] == b[..k][1..];
      BelowFirstDifference(a[1..], b[1..], k - 1);
    }
  }

  lemma {:induction false} BelowReflexive(a: string)
    ensures Below(a, a)
    decreases |a|
  {
    if |a| > 0 {
      BelowReflexive(a[1..]);
    }
  }

  lemma {:induction false} BelowTotal(a: string, b: string)
    ensures Below(a, b) || Below(b, a)
    decreases |a|
  {
    if |a| > 0 && |b| > 0 && a[0] == b[0] {
      BelowTotal(a[1..], b[1..]);
    }
  }

  lemma {:induction false} BelowAntisymmetric(a: string, b: string)
    requires Below(a, b) && Below(b, a)
    ensures a == b
    decreases |a|
  {
    if |a| > 0 {
      BelowAntisymmetric(a[1..], b[1..]);
      assert a == [a[0]] + a[1..];
      assert b == [b[0]] + b[1..];
    }
  }

  lemma {:induction false} BelowTransitive(a: string, b: string, c: string)
    requires Below(a, b) && Below(b, c)
    ensures Below(a, c)
    decreases |a|
  {
    if |a| > 0 && a[0] == b[0] && b[0] == c[0] {
      BelowTransitive(a[1..], b[1..], c[1..]);
    }
  }

  predicate Sorted(s: seq<string>)
  {
    forall i, j :: 0 <= i < j < |s| ==> Below(s[i], s[j])
  }

  /** Putting a name that is below every element in front keeps a list sorted. */
  lemma PrependSorted(y: string, r: seq<string>)
    requires Sorted(r)
    requires forall i :: 0 <= i < |r| ==> Below(y, r[i])
    ensures Sorted([y] + r)
  {
  }

  /** Inserts `x` into a sorted list before the first element it is below. */
  function Insert(x: string, s: seq<string>): (r: seq<string>)
    requires Sorted(s)
    ensures Sorted(r)
    ensures multiset(r) == multiset(s) + multiset{x}
  {
    if |s| == 0 then [x]
    else if Below(x, s[0]) then
      BelowTransitiveFrom(x, s);
      [x] + s
    else
      var r := Insert(x, s[1..]);
      BelowTotal(x, s[0]);
      HeadBelowInserted(x, s, r);
      assert s == [s[0]] + s[1..];
      [s[0]] + r
  }

  lemma BelowTransitiveFrom(x: string, s: seq<string>)
    requires Sorted(s) && |s| > 0 && Below(x, s[0])
    ensures Sorted([x] + s)
  {
    forall i | 0 <= i < |s|
      ensures Below(x, s[i])
    {
      if i > 0 {
        BelowTransitive(x, s[0], s[i]);
      }
    }
    PrependSorted(x, s);
  }

  lemma HeadBelowInserted(x: string, s: seq<string>, r: seq<string>)
    requires Sorted(s) && |s| > 0 && Below(s[0], x)
    requires Sorted(r) && multiset(r) == multiset(s[1..]) + multiset{x}
    ensures Sorted([s[0]] + r)
  {
    forall i | 0 <= i < |r|
      ensures Below(s[0], r[i])
    {
      assert r[i] in multiset(r);
      if r[i] != x {
        assert r[i] in multiset(s[1..]);
        var k :| 0 <= k < |s[1..]| && s[1..][k] == r[i];
        assert s[k + 1] == r[i];
      }
    }
    PrependSorted(s[0], r);
  }

  /** `sorted(names)`: the names rearranged into ascending order. */
  function Sort(names: seq<string>): (r: seq<string>)
    ensures Sorted(r)
    ensures multiset(r) == multiset(names)
    ensures |r| == |names|
  {
    if |names| == 0 then []
    else
      assert names == [names[0]] + names[1..];
      Insert(names[0], Sort(names[1..]))
  }

  /** Two sorted lists holding the same names start with the same name. */
  lemma SortedHeadsEqual(a: seq<string>, b: seq<string>)
    requires Sorted(a) && Sorted(b)
    requires multiset(a) == multiset(b) && |a| > 0
    ensures |b| > 0 && a[0] == b[0]
  {
    assert a[0] in multiset(b);
    var j :| 0 <= j < |b| && b[j] == a[0];
    assert b[0] in multiset(a);
    var k :| 0 <= k < |a| && a[k] == b[0];
    if j > 0 {
      assert Below(b[0], a[0]);
    } else {
      BelowReflexive(b[0]);
    }
    if k > 0 {
      assert Below(a[0], b[0]);
    } else {
      BelowReflexive(a[0]);
    }
    BelowAntisymmetric(a[0], b[0]);
  }

  lemma SortedTail(s: seq<string>)
    requires Sorted(s) && |s| > 0
    ensures Sorted(s[1..])
  {
    forall i, j | 0 <= i < j < |s[1..]|
      ensures Below(s[1..][i], s[1..][j])
    {
      assert s[1..][i] == s[i + 1] && s[1..][j] == s[j + 1];
    }
  }

  lemma TailMultiset(s: seq<string>)
    requires |s| > 0
    ensures multiset(s[1..]) == multiset(s) - multiset{s[0]}
  {
    assert s == [s[0]] + s[1..];
    assert multiset(s) == multiset{s[0]} + multiset(s[1..]);
  }

  /** A sorted rearrangement is unique: two sorted lists holding the same
      names, counted with multiplicity, are the same list. */
  lemma {:induction false} SortedUnique(a: seq<string>, b: seq<string>)
    requires Sorted(a) && Sorted(b)
    requires multiset(a) == multiset(b)
    ensures a == b
    decreases |a|
  {
    assert |a| == |multiset(a)| == |multiset(b)| == |b|;
    if |a| > 0 {
      SortedHeadsEqual(a, b);
      SortedTail(a);
      SortedTail(b);
      TailMultiset(a);
      TailMultiset(b);
      SortedUnique(a[1..], b[1..]);
      assert a == [a[0]] + a[1..];
      assert b == [b[0]] + b[1..];
    }
  }
}
