/**
 * The order in which a priority queue hands out its elements. The comparator that
 * decides it is not part of this model: `head` stands for it, choosing which of the
 * remaining elements is at the top (taken modulo the number of elements).
 */
module SplitQueue {

  /** The elements of `q` in the order successive `top(); pop();` calls return them. */
  function PopOrder<T>(q: seq<T>, head: seq<T> -> nat): (r: seq<T>)
    ensures |r| == |q|
    decreases |q|
  {
    if q == [] then []
    else
      var k := head(q) % |q|;
      [q[k]] + PopOrder(Without(q, k), head)
  }

  /** Popping everything returns each element exactly as often as it was queued. */
  lemma {:induction false} PopOrderIsPermutation<T>(q: seq<T>, head: seq<T> -> nat)
    ensures multiset(PopOrder(q, head)) == multiset(q)
    decreases |q|
  {
    if q != [] {
      var k := head(q) % |q|;
      var rest := Without(q, k);
      PopOrderIsPermutation(rest, head);
      assert q == q[..k] + [q[k]] + q[k + 1..];
      assert multiset(q) == multiset(q[..k]) + multiset{q[k]} + multiset(q[k + 1..]);
    }
  }

  /** The rest of the queue once the element at `k` is popped. */
  function Without<T>(q: seq<T>, k: nat): (r: seq<T>)
    requires k < |q|
    ensures |r| == |q| - 1
    ensures forall i :: 0 <= i < k ==> r[i] == q[i]
    ensures forall i :: k <= i < |r| ==> r[i] == q[i + 1]
  {
    q[..k] + q[k + 1..]
  }

  /** The first element popped is the one `head` picks; the rest follow in their own pop order. */
  lemma PopOrderUnfold<T>(q: seq<T>, head: seq<T> -> nat)
    requires q != []
    ensures PopOrder(q, head) == [q[head(q) % |q|]] + PopOrder(Without(q, head(q) % |q|), head)
  {
  }

  /**
   * Popping the top of the queue `q` moves the element `PopOrder` lists first from
   * the queue to the end of what was popped so far.
   */
  lemma PopStep<T>(popped: seq<T>, q: seq<T>, all: seq<T>, head: seq<T> -> nat)
    requires q != [] && popped + PopOrder(q, head) == PopOrder(all, head)
    ensures (popped + [q[head(q) % |q|]]) + PopOrder(Without(q, head(q) % |q|), head) == PopOrder(all, head)
  {
    var k := head(q) % |q|;
    var rest := PopOrder(Without(q, k), head);
    PopOrderUnfold(q, head);
    Concat3(popped, [q[k]], rest);
  }

  /** Concatenation is associative. */
  lemma Concat3<T>(a: seq<T>, b: seq<T>, c: seq<T>)
    ensures (a + b) + c == a + (b + c)
  {
  }

  /** What was popped so far is a prefix of the pop order of the whole queue. */
  lemma PoppedPrefix<T>(popped: seq<T>, q: seq<T>, all: seq<T>, head: seq<T> -> nat)
    requires popped + PopOrder(q, head) == PopOrder(all, head)
    ensures |popped| <= |all| && popped == PopOrder(all, head)[..|popped|]
  {
    assert (popped + PopOrder(q, head))[..|popped|] == popped;
  }

  /** Everything popped so far was in the queue. */
  lemma PoppedWereQueued<T>(popped: seq<T>, q: seq<T>, head: seq<T> -> nat)
    requires |popped| <= |q| && popped == PopOrder(q, head)[..|popped|]
    ensures forall x :: x in popped ==> x in q
  {
    PopOrderIsPermutation(q, head);
    forall x | x in popped ensures x in q {
      assert x in multiset(PopOrder(q, head));
    }
  }
}
