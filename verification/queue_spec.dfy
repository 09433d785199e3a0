/**
 * The card queue as a value: the sequence of card indices from the head of
 * the circular buffer to its tail. Both copies of the queue (the service's
 * and the device's) are specified by these functions.
 */
module QueueSpec {
  /** N: the number of cards, slots and buffer cells. */
  const Capacity: nat := 4

  /**
   * The buffer cell `k` cells past the start, for `k < 2 * Capacity`: the
   * source's `k % 4` written without the modulus.
   */
  function Wrap(k: nat): nat {
    if k < Capacity then k else k - Capacity
  }

  lemma WrapMod(k: nat)
    requires k < 2 * Capacity
    ensures k % Capacity == Wrap(k)
  {
  }

  /** What pop returns: the front card, or -1 for an empty queue. */
  function Front(q: seq<int>): int {
    if q == [] then -1 else q[0]
  }

  /** The queue after a pop; popping an empty queue leaves it empty. */
  function Rest(q: seq<int>): seq<int> {
    if q == [] then [] else q[1..]
  }

  /** The queue after push-back: the card joins the end unless the queue is full. */
  function PushedBack(q: seq<int>, card: int): seq<int> {
    if |q| >= Capacity then q else q + [card]
  }

  /** The queue after remove-if-present: every other card, in the same order. */
  function Without(q: seq<int>, card: int): seq<int> {
    if q == [] then []
    else if q[0] == card then Without(q[1..], card)
    else [q[0]] + Without(q[1..], card)
  }

  predicate NoDup(q: seq<int>) {
    forall i, j :: 0 <= i < j < |q| ==> q[i] != q[j]
  }

  /** Every entry is a card index 0..N-1. */
  predicate InRange(q: seq<int>) {
    forall i :: 0 <= i < |q| ==> 0 <= q[i] < Capacity
  }

  /** Pop takes from the front: FIFO order with respect to push-back. */
  lemma PopAfterPush(q: seq<int>, card: int)
    requires 0 < |q| < Capacity
    ensures Front(PushedBack(q, card)) == Front(q)
    ensures Rest(PushedBack(q, card)) == PushedBack(Rest(q), card)
  {
    assert (q + [card])[1..] == q[1..] + [card];
  }

  /** A card pushed onto an empty queue is the next one popped. */
  lemma PushThenPop(card: int)
    ensures Front(PushedBack([], card)) == card && Rest(PushedBack([], card)) == []
  {
  }

  /** Removal distributes over concatenation, so it keeps the relative order of the survivors. */
  lemma {:induction false} WithoutConcat(a: seq<int>, b: seq<int>, card: int)
    ensures Without(a + b, card) == Without(a, card) + Without(b, card)
    decreases |a|
  {
    if a != [] {
      assert (a + b)[0] == a[0];
      assert (a + b)[1..] == a[1..] + b;
      WithoutConcat(a[1..], b, card);
      if a[0] != card {
        assert [a[0]] + (Without(a[1..], card) + Without(b, card))
            == ([a[0]] + Without(a[1..], card)) + Without(b, card);
      }
    } else {
      assert a + b == b;
    }
  }

  /** Removing from one more card of a queue's prefix: that card is kept unless it is `card`. */
  lemma WithoutStep(q: seq<int>, k: nat, card: int)
    requires k < |q|
    ensures Without(q[..k + 1], card) == Without(q[..k], card) + (if q[k] == card then [] else [q[k]])
  {
    WithoutConcat(q[..k], [q[k]], card);
    assert q[..k + 1] == q[..k] + [q[k]];
  }

  /** Removal drops exactly the occurrences of the card. */
  lemma {:induction false} WithoutCounts(q: seq<int>, card: int)
    ensures multiset(Without(q, card)) == multiset(q)[card := 0]
    ensures card !in Without(q, card)
    ensures forall c :: c != card ==> (c in Without(q, card) <==> c in q)
    ensures |Without(q, card)| == |q| - multiset(q)[card]
    decreases |q|
  {
    if q != [] {
      WithoutCounts(q[1..], card);
      assert q == [q[0]] + q[1..];
      assert multiset(q) == multiset{q[0]} + multiset(q[1..]);
    }
  }

  /** Removing a card that is not there changes nothing. */
  lemma {:induction false} WithoutAbsent(q: seq<int>, card: int)
    requires card !in q
    ensures Without(q, card) == q
    decreases |q|
  {
    if q != [] {
      WithoutAbsent(q[1..], card);
    }
  }

  /** Remove-if-present is idempotent. */
  lemma WithoutIdempotent(q: seq<int>, card: int)
    ensures Without(Without(q, card), card) == Without(q, card)
  {
    WithoutCounts(q, card);
    WithoutAbsent(Without(q, card), card);
  }

  /** Removal never grows the queue. */
  lemma WithoutShrinks(q: seq<int>, card: int)
    ensures |Without(q, card)| <= |q|
    ensures card in q ==> |Without(q, card)| < |q|
  {
    WithoutCounts(q, card);
  }

  /** A queue of distinct card indices 0..N-1 holds at most N cards. */
  lemma {:induction false} DistinctBound(q: seq<int>, n: nat)
    requires NoDup(q)
    requires forall i :: 0 <= i < |q| ==> 0 <= q[i] < n
    ensures |q| <= n
    decreases n
  {
    if n > 0 {
      var r := Without(q, n - 1);
      WithoutCounts(q, n - 1);
      WithoutNoDup(q, n - 1);
      forall i | 0 <= i < |r| ensures 0 <= r[i] < n - 1 {
        assert r[i] in r && r[i] != n - 1;
        assert r[i] in q;
      }
      DistinctBound(r, n - 1);
      MultisetOfDistinct(q, n - 1);
    }
  }

  lemma {:induction false} MultisetOfDistinct(q: seq<int>, card: int)
    requires NoDup(q)
    ensures multiset(q)[card] <= 1
    decreases |q|
  {
    if q != [] {
      assert q == [q[0]] + q[1..];
      assert multiset(q) == multiset{q[0]} + multiset(q[1..]);
      assert NoDup(q[1..]);
      MultisetOfDistinct(q[1..], card);
      if q[0] == card {
        assert forall j :: 1 <= j < |q| ==> q[j] != q[0];
        assert card !in q[1..];
      }
    }
  }

  /** With N distinct in-range cards missing one, there is room to push it back. */
  lemma RoomForMissingCard(q: seq<int>, card: int)
    requires NoDup(q) && InRange(q)
    requires 0 <= card < Capacity && card !in q
    ensures |q| < Capacity
  {
    DistinctBound(q + [card], Capacity);
  }

  lemma {:induction false} WithoutNoDup(q: seq<int>, card: int)
    requires NoDup(q)
    ensures NoDup(Without(q, card))
    decreases |q|
  {
    if q != [] {
      assert NoDup(q[1..]);
      WithoutNoDup(q[1..], card);
      WithoutCounts(q[1..], card);
      if q[0] != card {
        assert forall j :: 1 <= j < |q| ==> q[j] != q[0];
        assert q[0] !in q[1..];
      }
    }
  }

  lemma WithoutInRange(q: seq<int>, card: int)
    requires InRange(q)
    ensures InRange(Without(q, card))
  {
    WithoutCounts(q, card);
    var r := Without(q, card);
    forall i | 0 <= i < |r| ensures 0 <= r[i] < Capacity {
      assert r[i] in r;
      assert r[i] in q;
    }
  }

  /** Push-back keeps the cards distinct exactly when the pushed card is absent or the queue is full. */
  lemma PushedBackNoDup(q: seq<int>, card: int)
    requires NoDup(q)
    ensures NoDup(PushedBack(q, card)) <==> (|q| >= Capacity || card !in q)
  {
    if |q| < Capacity && card in q {
      var j :| 0 <= j < |q| && q[j] == card;
      assert PushedBack(q, card)[j] == PushedBack(q, card)[|q|];
    }
  }

  /** Pop keeps the cards distinct and in range. */
  lemma RestKeeps(q: seq<int>)
    ensures NoDup(q) ==> NoDup(Rest(q))
    ensures InRange(q) ==> InRange(Rest(q))
    ensures InRange(q) && q != [] ==> 0 <= Front(q) < Capacity
  {
  }

  /** With distinct cards, popping removes exactly the front card. */
  lemma RestMembers(q: seq<int>)
    requires NoDup(q) && q != []
    ensures Front(q) !in Rest(q)
    ensures forall x :: x in Rest(q) <==> x in q && x != Front(q)
  {
    assert q == [q[0]] + q[1..];
    assert forall j :: 1 <= j < |q| ==> q[j] != q[0];
  }
}
