/**
 * The service and the device each keep a copy of the card queue and are
 * meant to stay equal by applying the same operations. The two copies are
 * written independently (a Python list with a rebuilt list on removal, a C
 * array with a scratch array); this module shows that, applied to equal
 * queues, every operation leaves them equal again and returns the same card.
 */
module QueueAgreement {
  import opened Wrappers
  import opened QueueSpec
  import ServerQueue
  import DeviceQueue

  datatype QueueOp = Pop | PushReturned(card: int) | RemoveIfPresent(card: int)

  /** Two copies agree when their queues, heads and sizes are the same. */
  ghost predicate Agree(s: ServerQueue.CardQueue, d: DeviceQueue.CardQueue)
    reads s, d
  {
    s.Contents == d.Contents && s.head == d.head && s.size == d.size
  }

  /** Applies one operation to both copies; returns what the two pops returned (None for the other operations). */
  method Lockstep(s: ServerQueue.CardQueue, d: DeviceQueue.CardQueue, op: QueueOp)
    returns (fromServer: Option<int>, fromDevice: Option<int>)
    requires s.Valid() && d.Valid() && s.data != d.data
    requires Agree(s, d)
    modifies s, s.data, d, d.data
    ensures s.Valid() && d.Valid()
    ensures Agree(s, d)
    ensures fromServer == fromDevice
    ensures fromServer == if op.Pop? then Some(Front(old(s.Contents))) else None
  {
    fromServer, fromDevice := None, None;
    match op {
      case Pop =>
        var a := s.Pop();
        var b := d.Pop();
        fromServer, fromDevice := Some(a), Some(b);
      case PushReturned(card) =>
        s.PushReturned(card);
        d.PushReturned(card);
      case RemoveIfPresent(card) =>
        s.RemoveIfPresent(card);
        d.RemoveIfPresent(card);
    }
  }
}
