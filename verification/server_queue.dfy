/**
 * The service's card queue: a list of four cells used as a circular buffer,
 * with module-level `head` and `size` counters that the three operations
 * update in place.
 */
module ServerQueue {
  import opened QueueSpec

  class CardQueue {
    /** The four cells of the buffer (the list object itself never changes). */
    const data: array<int>
    var head: nat
    var size: nat
    /** The queue from head to tail. */
    ghost var Contents: seq<int>

    ghost predicate Valid()
      reads this, data
    {
      && data.Length == Capacity
      && head < Capacity
      && size <= Capacity
      && |Contents| == size
      && forall i :: 0 <= i < size ==> Contents[i] == data[Wrap(head + i)]
    }

    /** The start-up state: cards 0, 1, 2, 3 in that order. */
    constructor ()
      ensures Valid() && fresh(data)
      ensures Contents == [0, 1, 2, 3] && head == 0
    {
      var cells := new int[Capacity];
      cells[0], cells[1], cells[2], cells[3] := 0, 1, 2, 3;
      data := cells;
      head, size := 0, Capacity;
      Contents := [0, 1, 2, 3];
    }

    /** Pops the front card; -1 when the queue is empty, and then nothing changes. */
    method Pop() returns (card: int)
      requires Valid()
      modifies this
      ensures Valid()
      ensures card == Front(old(Contents)) && Contents == Rest(old(Contents))
      ensures old(size) == 0 ==> head == old(head) && size == 0
      ensures old(size) > 0 ==> head == (old(head) + 1) % Capacity
    {
      if size == 0 {
        return -1;
      }
      card := data[head];
      assert card == Contents[0] by { assert Wrap(head + 0) == head; }
      WrapMod(head + 1);
      head := (head + 1) % Capacity;
      size := size - 1;
      Contents := Contents[1..];
    }

    /** Appends a returned card at the tail; a full queue is left as it is. */
    method PushReturned(card: int)
      requires Valid()
      modifies this, data
      ensures Valid()
      ensures Contents == PushedBack(old(Contents), card)
      ensures head == old(head)
      ensures old(size) >= Capacity ==> size == old(size) && data[..] == old(data[..])
    {
      if size >= Capacity {
        return;
      }
      WrapMod(head + size);
      var insertPos := (head + size) % Capacity;
      data[insertPos] := card;
      size := size + 1;
      Contents := Contents + [card];
    }

    /**
     * Rebuilds the buffer without `card`, keeping the order of the other
     * cards, and resets head to 0; an empty queue returns at once.
     */
    method RemoveIfPresent(card: int)
      requires Valid()
      modifies this, data
      ensures Valid()
      ensures Contents == Without(old(Contents), card)
      ensures old(size) == 0 ==> head == old(head)
      ensures old(size) > 0 ==> head == 0
    {
      if size == 0 {
        return;
      }
      ghost var items := Contents;
      var kept: seq<int> := [];
      var i := 0;
      while i < size
        modifies {}
        invariant 0 <= i <= size
        invariant kept == Without(items[..i], card)
      {
        WrapMod(head + i);
        var pos := (head + i) % Capacity;
        var val := data[pos];
        assert val == items[i];
        WithoutStep(items, i, card);
        i := i + 1;
        if val != card {
          kept := kept + [val];
        }
      }
      assert items[..size] == items;
      WithoutShrinks(items, card);
      // write back
      var k := 0;
      while k < |kept|
        modifies data
        invariant 0 <= k <= |kept|
        invariant forall j :: 0 <= j < k ==> data[j] == kept[j]
      {
        data[k] := kept[k];
        k := k + 1;
      }
      assert forall j :: 0 <= j < |kept| ==> Wrap(j) == j;
      head := 0;
      size := |kept|;
      Contents := kept;
    }
  }
}
