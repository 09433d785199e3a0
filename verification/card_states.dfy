/**
 * Where each of the device's four cards is, as values: in the dispense
 * queue, in a timed session, or waiting for payment, and the card being paid.
 * Every step of the controller that moves a card keeps each card in exactly
 * one of the three places.
 */
module CardStates {
  import opened QueueSpec
  import opened DeviceRules

  /** Each card is in exactly one place: queued, counting, or awaiting payment. */
  ghost predicate Accounted(q: seq<int>, counting: seq<bool>, awaiting: seq<bool>)
    requires |counting| == SlotCount && |awaiting| == SlotCount
  {
    && NoDup(q) && InRange(q)
    && forall c :: 0 <= c < SlotCount ==>
         && (c in q <==> !counting[c] && !awaiting[c])
         && !(counting[c] && awaiting[c])
  }

  /** A card is being paid exactly when some card awaits payment, and it is one of them. */
  ghost predicate PayerOk(payer: int, awaiting: seq<bool>)
    requires |awaiting| == SlotCount
  {
    && -1 <= payer < SlotCount
    && (payer == -1 <==> forall c :: 0 <= c < SlotCount ==> !awaiting[c])
    && (payer != -1 ==> awaiting[payer])
  }

  /** At power-on every card is in the queue and none is in a session or owes anything. */
  lemma InitialAccounted()
    ensures Accounted([0, 1, 2, 3], [false, false, false, false], [false, false, false, false])
    ensures PayerOk(-1, [false, false, false, false])
  {
    var q := [0, 1, 2, 3];
    assert forall c :: 0 <= c < SlotCount ==> q[c] == c;
  }

  /** The entry button: the front card leaves the queue and starts a session. */
  lemma DispenseAccounted(q: seq<int>, counting: seq<bool>, awaiting: seq<bool>)
    requires |counting| == SlotCount && |awaiting| == SlotCount
    requires Accounted(q, counting, awaiting) && q != []
    ensures 0 <= Front(q) < SlotCount && !counting[Front(q)]
    ensures Accounted(Rest(q), counting[Front(q) := true], awaiting)
  {
    RestKeeps(q);
    RestMembers(q);
  }

  /** A `START:` command: a card in neither a session nor a payment leaves the queue and starts a session. */
  lemma StartAccounted(q: seq<int>, counting: seq<bool>, awaiting: seq<bool>, c: int)
    requires |counting| == SlotCount && |awaiting| == SlotCount
    requires Accounted(q, counting, awaiting)
    requires 0 <= c < SlotCount && !counting[c] && !awaiting[c]
    ensures c in q
    ensures Accounted(Without(q, c), counting[c := true], awaiting)
  {
    WithoutCounts(q, c);
    WithoutNoDup(q, c);
    WithoutInRange(q, c);
  }

  /** A card scanned during its session moves to awaiting payment, and is paid next if nobody is. */
  lemma ScanAccounted(q: seq<int>, counting: seq<bool>, awaiting: seq<bool>, payer: int, c: int)
    requires |counting| == SlotCount && |awaiting| == SlotCount
    requires Accounted(q, counting, awaiting) && PayerOk(payer, awaiting)
    requires 0 <= c < SlotCount && counting[c]
    ensures Accounted(q, counting[c := false], awaiting[c := true])
    ensures PayerOk(if payer == -1 then c else payer, awaiting[c := true])
  {
  }

  /**
   * A completed payment: the card stops awaiting payment and rejoins the
   * queue at its end, which has room for it.
   */
  lemma PaidAccounted(q: seq<int>, counting: seq<bool>, awaiting: seq<bool>, c: int)
    requires |counting| == SlotCount && |awaiting| == SlotCount
    requires Accounted(q, counting, awaiting)
    requires 0 <= c < SlotCount && awaiting[c]
    ensures |q| < Capacity && PushedBack(q, c) == q + [c]
    ensures Accounted(q + [c], counting, awaiting[c := false])
  {
    RoomForMissingCard(q, c);
    PushedBackNoDup(q, c);
  }

  /** Serving the first card awaiting payment, by index, keeps the payer consistent. */
  lemma NextPayerOk(awaiting: seq<bool>)
    requires |awaiting| == SlotCount
    ensures PayerOk(FirstSet(awaiting), awaiting)
  {
  }
}
