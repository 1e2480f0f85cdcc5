/**
  The order in which JavaScript's `Array.prototype.sort()` puts strings when it
  is called without a comparator: character by character from the left, the
  first differing character decides, and a proper prefix comes first.
  This module defines that order on `string` and proves it is a total order.
 */
module StringOrder {

  /** `a` and `b` agree on their first `k` characters and `a` is smaller at index `k`. */
  ghost predicate FirstDifferenceBelow(a: string, b: string, k: nat)
  {
    k < |a| && k < |b| && a[..k] == b[..k] && a[k] < b[k]
  }

  /** When the first character of `a` is the larger one, `a` is no prefix of `b` and never smaller at a first difference. */
  lemma NoDifferenceBelow(a: string, b: string)
    requires |a| > 0 && |b| > 0 && b[0] < a[0]
    ensures !(a <= b)
    ensures forall k: nat :: !FirstDifferenceBelow(a, b, k)
  {
    forall k: nat | FirstDifferenceBelow(a, b, k)
      ensures false
    {
    }
  }

  /** Stripping a common first character changes neither prefix nor first difference. */
  lemma ShiftDifference(a: string, b: string)
    requires |a| > 0 && |b| > 0 && a[0] == b[0]
    ensures (a <= b) <==> (a[1..] <= b[1..])
    ensures (exists k: nat :: FirstDifferenceBelow(a, b, k))
            <==> (exists k: nat :: FirstDifferenceBelow(a[1..], b[1..], k))
  {
    assert a == [a[0]] + a[1..] && b == [b[0]] + b[1..];
    if k: nat :| FirstDifferenceBelow(a, b, k) {
      assert k > 0;
      assert a[1..][..k - 1] == a[..k][1..] == b[..k][1..] == b[1..][..k - 1];
      assert FirstDifferenceBelow(a[1..], b[1..], k - 1);
    }
    if k: nat :| FirstDifferenceBelow(a[1..], b[1..], k) {
      assert a[..k + 1] == [a[0]] + a[1..][..k] == [b[0]] + b[1..][..k] == b[..k + 1];
      assert FirstDifferenceBelow(a, b, k + 1);
    }
  }

  /**
    `a` sorts no later than `b`: `a` is a prefix of `b`, or at the first
    index where they differ the character of `a` is the smaller one.
   */
  predicate LexLe(a: string, b: string)
    ensures LexLe(a, b) <==> a <= b || exists k: nat :: FirstDifferenceBelow(a, b, k)
  {
    if |a| == 0 then true
    else if |b| == 0 then false
    else if a[0] < b[0] then
      assert FirstDifferenceBelow(a, b, 0);
      true
    else if a[0] != b[0] then
      NoDifferenceBelow(a, b);
      false
    else
      ShiftDifference(a, b);
      LexLe(a[1..], b[1..])
  }

  lemma {:induction false} LexLeReflexive(a: string)
    ensures LexLe(a, a)
  {
    if |a| > 0 {
      LexLeReflexive(a[1..]);
    }
  }

  lemma {:induction false} LexLeTotal(a: string, b: string)
    ensures LexLe(a, b) || LexLe(b, a)
  {
    if |a| > 0 && |b| > 0 && a[0] == b[0] {
      LexLeTotal(a[1..], b[1..]);
    }
  }

  lemma {:induction false} LexLeAntisymmetric(a: string, b: string)
    requires LexLe(a, b) && LexLe(b, a)
    ensures a == b
  {
    if |a| > 0 && |b| > 0 {
      LexLeAntisymmetric(a[1..], b[1..]);
      assert a == [a[0]] + a[1..] && b == [b[0]] + b[1..];
    }
  }

  lemma {:induction false} LexLeTransitive(a: string, b: string, c: string)
    requires LexLe(a, b) && LexLe(b, c)
    ensures LexLe(a, c)
  {
    if |a| > 0 && |b| > 0 && |c| > 0 && a[0] == b[0] && b[0] == c[0] {
      LexLeTransitive(a[1..], b[1..], c[1..]);
    }
  }

  /** A prefix sorts no later than any extension of it, and strictly before a longer one. */
  lemma {:induction false} PrefixFirst(a: string, b: string)
    ensures LexLe(a, a + b)
    ensures b != "" ==> !LexLe(a + b, a)
  {
    if |a| > 0 {
      assert (a + b)[0] == a[0];
      assert (a + b)[1..] == a[1..] + b;
      PrefixFirst(a[1..], b);
    }
  }
}
