/**
 SwifterSwift's `<` on `Int?`. Swift promotes a bare `Int` operand to `Int?`,
 so `x < 0`, `-1 < x` and `x < y` are all the one comparator `Less` with a
 bare `n` written as `Some(n)`. Absence sorts below every present value.
 */
module OptionalOrdering {
  import opened Optionals

  /** `lhs < rhs`. Two present values compare as integers; `nil` is below
      every present value; nothing is below `nil`. `nil < nil` is false. */
  predicate Less(lhs: Option<int>, rhs: Option<int>)
    ensures rhs.None? ==> !Less(lhs, rhs)
    ensures lhs.None? && rhs.Some? ==> Less(lhs, rhs)
    ensures lhs.Some? && rhs.Some? ==> (Less(lhs, rhs) <==> lhs.value < rhs.value)
  {
    match (lhs, rhs)
    case (Some(a), Some(b)) => a < b
    case (None, Some(_)) => true
    case (_, None) => false
  }

  /** The non-strict companion of `Less` (not `rhs < lhs`), used by `Sorted`. */
  predicate LessOrEqual(lhs: Option<int>, rhs: Option<int>)
  {
    !Less(rhs, lhs)
  }

  /** An independent reference ordering: `nil` is ranked 0 and a present `n`
      is ranked 1, ties broken by the held integer (lexicographic order on
      the pair). */
  function Rank(o: Option<int>): (nat, int)
  {
    match o
    case None => (0, 0)
    case Some(n) => (1, n)
  }

  predicate LexLess(p: (nat, int), q: (nat, int))
  {
    p.0 < q.0 || (p.0 == q.0 && p.1 < q.1)
  }

  /** `Less` is exactly the lexicographic order on ranks, except that it does
      not order `nil` against `nil`, which the reference also leaves unordered. */
  lemma LessMatchesRank(a: Option<int>, b: Option<int>)
    ensures Less(a, b) <==> LexLess(Rank(a), Rank(b))
  {
  }

  /** `nil` is the least element: below every present value, never above one.
      This restates the ensures of `Less` for a bare `n`, as compared at
      lines 121-140 of `OptionalExtensionsTests.swift`. */
  lemma NilIsMinimal(n: int)
    ensures Less(None, Some(n))
    ensures !Less(Some(n), None)
  {
  }

  /** `Less` is a strict total order on `Int?`: irreflexive, transitive,
      and any two distinct values are ordered one way or the other. */
  lemma LessIsStrictTotalOrder(a: Option<int>, b: Option<int>, c: Option<int>)
    ensures !Less(a, a)
    ensures Less(a, b) && Less(b, c) ==> Less(a, c)
    ensures a != b ==> Less(a, b) || Less(b, a)
    ensures !(Less(a, b) && Less(b, a))
  {
  }

  /** Every earlier element is `<=` every later one. */
  ghost predicate Sorted(s: seq<Option<int>>)
  {
    forall i, j :: 0 <= i < j < |s| ==> LessOrEqual(s[i], s[j])
  }

  /** Each element is `<=` its successor. */
  ghost predicate AdjacentSorted(s: seq<Option<int>>)
  {
    forall i :: 0 < i < |s| ==> LessOrEqual(s[i - 1], s[i])
  }

  /** A sequence whose neighbours are in `LessOrEqual` order is sorted:
      checking neighbours suffices, by transitivity of `LessOrEqual`. */
  lemma {:induction false} AdjacentSortedIsSorted(s: seq<Option<int>>)
    requires AdjacentSorted(s)
    ensures Sorted(s)
  {
    if |s| > 1 {
      var init := s[..|s| - 1];
      assert AdjacentSorted(init) by {
        forall i | 0 < i < |init|
          ensures LessOrEqual(init[i - 1], init[i])
        {
          assert init[i - 1] == s[i - 1] && init[i] == s[i];
        }
      }
      AdjacentSortedIsSorted(init);
      forall i, j | 0 <= i < j < |s|
        ensures LessOrEqual(s[i], s[j])
      {
        if j < |s| - 1 {
          assert s[i] == init[i] && s[j] == init[j];
        } else if i < j - 1 {
          assert LessOrEqual(init[i], init[j - 1]);
          assert LessOrEqual(s[j - 1], s[j]);
          LessOrEqualTransitive(s[i], s[j - 1], s[j]);
        }
      }
    }
  }

  lemma LessOrEqualTransitive(a: Option<int>, b: Option<int>, c: Option<int>)
    requires LessOrEqual(a, b) && LessOrEqual(b, c)
    ensures LessOrEqual(a, c)
  {
  }

  /** In a sorted sequence of `Int?` every `nil` precedes every present
      value: absence sorts first. */
  lemma NilsSortFirst(s: seq<Option<int>>, i: int, j: int)
    requires Sorted(s)
    requires 0 <= i < j < |s|
    requires s[j].None?
    ensures s[i].None?
  {
  }
}
