/**
  The two list computations behind the schedule-time chips of the medication
  form: spreading the list, appending the new time and calling `.sort()`
  (adding), and `.filter(time => time !== timeToRemove)` (removing).
 */
module ScheduleTimes {
  import opened StringOrder

  /** Every entry sorts no later than every entry after it. */
  predicate Sorted(s: seq<string>)
  {
    forall i, j | 0 <= i < j < |s| :: LexLe(s[i], s[j])
  }

  /** `r` is `s` with some entries left out and the rest in their original order. */
  predicate Subsequence(r: seq<string>, s: seq<string>)
    decreases |s|
  {
    |r| <= |s| &&
    (r == [] || (r[0] == s[0] && Subsequence(r[1..], s[1..])) || Subsequence(r, s[1..]))
  }

  // ---------------------------------------------------------------------------
  // Sorting

  /** Puts `x` in front of `s` when `x` sorts no later than the head of `s`. */
  lemma PrependKeepsSorted(x: string, s: seq<string>)
    requires |s| > 0 && LexLe(x, s[0])
    ensures Sorted(s) ==> Sorted([x] + s)
  {
    if Sorted(s) {
      forall k | 0 < k < |s|
        ensures LexLe(x, s[k])
      {
        LexLeTransitive(x, s[0], s[k]);
      }
    }
  }

  /** The head of a sorted `s` is a lower bound of `t`, which holds the tail of `s` and `x`. */
  lemma HeadBoundsInsertedTail(s: seq<string>, x: string, t: seq<string>)
    requires |s| > 0 && !LexLe(x, s[0])
    requires multiset(t) == multiset(s[1..]) + multiset{x}
    ensures Sorted(s) && Sorted(t) ==> Sorted([s[0]] + t)
  {
    if Sorted(s) && Sorted(t) {
      forall k | 0 <= k < |t|
        ensures LexLe(s[0], t[k])
      {
        assert t[k] in multiset(t);
        if t[k] == x {
          LexLeTotal(x, s[0]);
        } else {
          assert t[k] in s[1..];
          var m :| 0 <= m < |s[1..]| && s[1..][m] == t[k];
          assert s[m + 1] == t[k];
        }
      }
    }
  }

  /** Inserts `x` into `s` in front of the first entry it sorts no later than. */
  function Insert(s: seq<string>, x: string): (r: seq<string>)
    ensures |r| == |s| + 1
    ensures multiset(r) == multiset(s) + multiset{x}
    ensures Sorted(s) ==> Sorted(r)
  {
    if s == [] then [x]
    else if LexLe(x, s[0]) then
      PrependKeepsSorted(x, s);
      [x] + s
    else
      var t := Insert(s[1..], x);
      assert s == [s[0]] + s[1..];
      HeadBoundsInsertedTail(s, x, t);
      [s[0]] + t
  }

  /**
    The list `.sort()` produces: sorted, and a permutation of its input
    (same entries, same number of copies of each).
   */
  function Sort(s: seq<string>): (r: seq<string>)
    ensures Sorted(r)
    ensures multiset(r) == multiset(s)
    ensures |r| == |s|
  {
    if s == [] then []
    else
      assert s == [s[0]] + s[1..];
      Insert(Sort(s[1..]), s[0])
  }

  lemma CancelSingleton(x: string, m: multiset<string>, n: multiset<string>)
    requires multiset{x} + m == multiset{x} + n
    ensures m == n
  {
    forall y
      ensures m[y] == n[y]
    {
      assert (multiset{x} + m)[y] == (multiset{x} + n)[y];
    }
  }

  lemma ClearAfterSingleton(x: string, m: multiset<string>, t: string)
    requires x != t
    ensures (multiset{x} + m)[t := 0] == multiset{x} + m[t := 0]
  {
  }

  lemma SplitHead(a: seq<string>)
    requires |a| > 0
    ensures multiset(a) == multiset{a[0]} + multiset(a[1..])
  {
    assert a == [a[0]] + a[1..];
  }

  /** Two sorted arrangements of the same entries start with the same entry. */
  lemma HeadsAgree(a: seq<string>, b: seq<string>)
    requires Sorted(a) && Sorted(b) && |a| > 0
    requires multiset(a) == multiset(b)
    ensures |b| > 0 && a[0] == b[0]
  {
    assert a[0] in multiset(b);
    var i :| 0 <= i < |b| && b[i] == a[0];
    assert b[0] in multiset(a);
    var j :| 0 <= j < |a| && a[j] == b[0];
    if i == 0 { LexLeReflexive(b[0]); }
    if j == 0 { LexLeReflexive(a[0]); }
    LexLeAntisymmetric(a[0], b[0]);
  }

  /** There is only one sorted arrangement of a multiset of strings. */
  lemma {:induction false} SortedPermutationUnique(a: seq<string>, b: seq<string>)
    requires Sorted(a) && Sorted(b)
    requires multiset(a) == multiset(b)
    ensures a == b
  {
    if a == [] {
      assert |multiset(b)| == 0;
    } else {
      HeadsAgree(a, b);
      SplitHead(a);
      SplitHead(b);
      CancelSingleton(a[0], multiset(a[1..]), multiset(b[1..]));
      SortedPermutationUnique(a[1..], b[1..]);
      assert a == [a[0]] + a[1..] && b == [b[0]] + b[1..];
    }
  }

  /** The sorted result depends only on the entries, whatever order they came in. */
  lemma SortIgnoresOrder(a: seq<string>, b: seq<string>)
    requires multiset(a) == multiset(b)
    ensures Sort(a) == Sort(b)
  {
    SortedPermutationUnique(Sort(a), Sort(b));
  }

  /** Sorting a list that is already sorted changes nothing. */
  lemma SortOfSorted(s: seq<string>)
    requires Sorted(s)
    ensures Sort(s) == s
  {
    SortedPermutationUnique(Sort(s), s);
  }

  /** Adding to a sorted list and sorting again is inserting the new entry in place. */
  lemma SortAfterAppend(s: seq<string>, x: string)
    requires Sorted(s)
    ensures Sort(s + [x]) == Insert(s, x)
  {
    assert multiset(s + [x]) == multiset(s) + multiset{x};
    SortedPermutationUnique(Sort(s + [x]), Insert(s, x));
  }

  // ---------------------------------------------------------------------------
  // Removing

  /** Every entry equal to `t` deleted, the others kept in order. */
  function RemoveAll(s: seq<string>, t: string): (r: seq<string>)
    ensures t !in r
    ensures multiset(r) == multiset(s)[t := 0]
    ensures Subsequence(r, s)
  {
    if s == [] then []
    else
      assert s == [s[0]] + s[1..];
      var rest := RemoveAll(s[1..], t);
      if s[0] == t then rest
      else
        assert ([s[0]] + rest)[1..] == rest;
        [s[0]] + rest
  }

  lemma {:induction false} SubsequenceMultiset(r: seq<string>, s: seq<string>)
    requires Subsequence(r, s)
    ensures multiset(r) <= multiset(s)
    decreases |s|
  {
    if r == [] {
    } else if Subsequence(r, s[1..]) {
      SubsequenceMultiset(r, s[1..]);
      assert s == [s[0]] + s[1..];
    } else {
      SubsequenceMultiset(r[1..], s[1..]);
      assert r == [r[0]] + r[1..] && s == [s[0]] + s[1..];
    }
  }

  /** Leaving entries out of a sorted list keeps it sorted. */
  lemma {:induction false} SubsequenceKeepsSorted(r: seq<string>, s: seq<string>)
    requires Subsequence(r, s) && Sorted(s)
    ensures Sorted(r)
    decreases |s|
  {
    if r == [] {
    } else if Subsequence(r, s[1..]) {
      SubsequenceKeepsSorted(r, s[1..]);
    } else {
      SubsequenceKeepsSorted(r[1..], s[1..]);
      SubsequenceMultiset(r[1..], s[1..]);
      forall k | 0 < k < |r|
        ensures LexLe(r[0], r[k])
      {
        assert r[k] == r[1..][k - 1];
        assert r[k] in multiset(s[1..]);
        var m :| 0 <= m < |s[1..]| && s[1..][m] == r[k];
        assert s[m + 1] == r[k];
      }
      assert r == [r[0]] + r[1..];
    }
  }

  /**
    Removal is determined by what it keeps: the only list that keeps the
    entries of `s` in order and holds every entry other than `t` as often as
    `s` does, and no `t`, is `RemoveAll(s, t)`.
   */
  lemma {:induction false} RemoveAllUnique(s: seq<string>, t: string, r: seq<string>)
    requires Subsequence(r, s)
    requires multiset(r) == multiset(s)[t := 0]
    ensures r == RemoveAll(s, t)
    decreases |s|
  {
    if s == [] {
    } else {
      assert s == [s[0]] + s[1..];
      if s[0] == t {
        assert multiset(s[1..])[t := 0] == multiset(s)[t := 0];
        RemoveAllUnique(s[1..], t, r);
      } else if Subsequence(r, s[1..]) {
        // r would have to hold s[0] as often as s does, from the tail alone
        SubsequenceMultiset(r, s[1..]);
        assert false;
      } else {
        SplitHead(r);
        SplitHead(s);
        ClearAfterSingleton(s[0], multiset(s[1..]), t);
        CancelSingleton(s[0], multiset(r[1..]), multiset(s[1..])[t := 0]);
        RemoveAllUnique(s[1..], t, r[1..]);
      }
    }
  }

  /** Removing from a sorted list leaves it sorted. */
  lemma RemoveAllKeepsSorted(s: seq<string>, t: string)
    requires Sorted(s)
    ensures Sorted(RemoveAll(s, t))
  {
    SubsequenceKeepsSorted(RemoveAll(s, t), s);
  }
}
