/**
 * The device's card queue: `int availableQueue[4]` with the globals
 * `queueHead` and `queueSize`, updated in place by the three operations.
 */
module DeviceQueue {
  import opened QueueSpec

  class CardQueue {
    /** `availableQueue`: the four cells of the buffer. */
    const data: array<int>
    var head: nat
    var size: nat
    /** The queue from head to tail. */
    ghost var Contents: seq<int>

    ghost predicate Valid()
      reads this, data
    {
      && data.Length == Capacity
      && head < Capacity
      && size <= Capacity
      && |Contents| == size
      && forall i :: 0 <= i < size ==> Contents[i] == data[Wrap(head + i)]
    }

    /** The start-up state: cards 0, 1, 2, 3 in that order. */
    constructor ()
      ensures Valid() && fresh(data)
      ensures Contents == [0, 1, 2, 3] && head == 0
    {
      var cells := new int[Capacity];
      cells[0], cells[1], cells[2], cells[3] := 0, 1, 2, 3;
      data := cells;
      head, size := 0, Capacity;
      Contents := [0, 1, 2, 3];
    }

    /** Pops the front card; -1 when the queue is empty, and then nothing changes. */
    method Pop() returns (card: int)
      requires Valid()
      modifies this
      ensures Valid()
      ensures card == Front(old(Contents)) && Contents == Rest(old(Contents))
      ensures old(size) == 0 ==> head == old(head) && size == 0
      ensures old(size) > 0 ==> head == (old(head) + 1) % Capacity
    {
      if size == 0 {
        return -1;
      }
      card := data[head];
      assert card == Contents[0] by { assert Wrap(head + 0) == head; }
      WrapMod(head + 1);
      head := (head + 1) % Capacity;
      size := size - 1;
      Contents := Contents[1..];
    }

    /** Appends a returned card at the tail; a full queue is left as it is. */
    method PushReturned(card: int)
      requires Valid()
      modifies this, data
      ensures Valid()
      ensures Contents == PushedBack(old(Contents), card)
      ensures head == old(head)
      ensures old(size) >= Capacity ==> size == old(size) && data[..] == old(data[..])
    {
      if size >= Capacity {
        return;
      }
      WrapMod(head + size);
      var insertPos := (head + size) % Capacity;
      data[insertPos] := card;
      size := size + 1;
      Contents := Contents + [card];
    }

    /**
     * Rebuilds the buffer without `card`, keeping the order of the other
     * cards, and resets head to 0; an empty queue returns at once.
     */
    method RemoveIfPresent(card: int)
      requires Valid()
      modifies this, data
      ensures Valid()
      ensures Contents == Without(old(Contents), card)
      ensures old(size) == 0 ==> head == old(head)
      ensures old(size) > 0 ==> head == 0
    {
      if size == 0 {
        return;
      }
      ghost var items := Contents;
      var newQueue := new int[Capacity];
      var newSize := 0;
      var k := 0;
      while k < size
        modifies newQueue
        invariant 0 <= k <= size
        invariant 0 <= newSize <= k
        invariant newQueue[..newSize] == Without(items[..k], card)
      {
        WrapMod(head + k);
        var pos := (head + k) % Capacity;
        var val := data[pos];
        assert val == items[k];
        WithoutStep(items, k, card);
        if val != card {
          newQueue[newSize] := val;
          newSize := newSize + 1;
        }
        k := k + 1;
      }
      assert items[..size] == items;
      ghost var kept := newQueue[..newSize];
      // write back
      k := 0;
      while k < newSize
        modifies data
        invariant 0 <= k <= newSize
        invariant forall j :: 0 <= j < k ==> data[j] == kept[j]
      {
        data[k] := newQueue[k];
        k := k + 1;
      }
      assert forall j :: 0 <= j < newSize ==> Wrap(j) == j;
      head := 0;
      size := newSize;
      Contents := kept;
    }
  }
}
