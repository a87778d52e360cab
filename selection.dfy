// The element-selection policy of the simplifier, over any depth and size
// measure: scanning left to right, a candidate replaces the current best
// when it is strictly deeper, or equally deep and strictly smaller.

module Selection {

  /** The replacement test of the scan. */
  predicate Replaces<T>(depth: T -> nat, size: T -> nat, candidate: T, best: T) {
    depth(candidate) > depth(best) ||
    (depth(candidate) == depth(best) && size(candidate) < size(best))
  }

  /** Index k is the one element the policy keeps: no element is deeper,
      none of the same depth is smaller, and every earlier element is
      strictly worse. */
  ghost predicate IsBest<T>(es: seq<T>, k: nat, depth: T -> nat, size: T -> nat) {
    k < |es| &&
    (forall j :: 0 <= j < |es| ==> depth(es[j]) <= depth(es[k])) &&
    (forall j :: 0 <= j < |es| && depth(es[j]) == depth(es[k]) ==> size(es[k]) <= size(es[j])) &&
    (forall j :: 0 <= j < k ==> Replaces(depth, size, es[k], es[j]))
  }

  /** The left-to-right scan as a function: the index kept of a non-empty
      sequence. */
  function BestIndex<T>(es: seq<T>, depth: T -> nat, size: T -> nat): (k: nat)
    requires |es| > 0
    ensures k < |es|
  {
    if |es| == 1 then 0
    else
      var k := BestIndex(es[..|es| - 1], depth, size);
      if Replaces(depth, size, es[|es| - 1], es[k]) then |es| - 1 else k
  }

  /** One step of the scan over the prefixes of a sequence. */
  lemma BestIndexStep<T>(es: seq<T>, i: nat, depth: T -> nat, size: T -> nat)
    requires 0 < i < |es|
    ensures var k := BestIndex(es[..i], depth, size);
      k < i &&
      BestIndex(es[..i + 1], depth, size) == if Replaces(depth, size, es[i], es[k]) then i else k
  {
    assert es[..i + 1][..i] == es[..i];
  }

  /** The scan keeps the element the policy describes. */
  lemma {:induction false} BestIndexIsBest<T>(es: seq<T>, depth: T -> nat, size: T -> nat)
    requires |es| > 0
    ensures IsBest(es, BestIndex(es, depth, size), depth, size)
  {
    if |es| > 1 {
      var n := |es| - 1;
      var front := es[..n];
      BestIndexIsBest(front, depth, size);
      var k := BestIndex(front, depth, size);
      assert BestIndex(es, depth, size) == if Replaces(depth, size, es[n], es[k]) then n else k;
      forall j | 0 <= j < n ensures !Replaces(depth, size, es[j], es[k]) {
        assert es[j] == front[j];
      }
      if Replaces(depth, size, es[n], es[k]) {
        PolicyMinimum(es, n, depth, size);
      } else {
        forall j | 0 <= j < k ensures Replaces(depth, size, es[k], es[j]) {
          assert es[j] == front[j];
        }
        PolicyMinimum(es, k, depth, size);
      }
    }
  }

  /** The policy's verdicts, restated as IsBest. */
  lemma PolicyMinimum<T>(es: seq<T>, k: nat, depth: T -> nat, size: T -> nat)
    requires k < |es|
    requires forall j :: 0 <= j < |es| ==> !Replaces(depth, size, es[j], es[k])
    requires forall j :: 0 <= j < k ==> Replaces(depth, size, es[k], es[j])
    ensures IsBest(es, k, depth, size)
  {
  }

  /** At most one index satisfies the policy. */
  lemma BestIsUnique<T>(es: seq<T>, k1: nat, k2: nat, depth: T -> nat, size: T -> nat)
    requires IsBest(es, k1, depth, size) && IsBest(es, k2, depth, size)
    ensures k1 == k2
  {
    assert k1 < k2 ==> Replaces(depth, size, es[k2], es[k1]);
    assert k2 < k1 ==> Replaces(depth, size, es[k1], es[k2]);
  }
}
