/**
 * Whole runs of the two sides from power-on, each stated as the outcome it
 * must have: reservations served in arrival order, a payment report
 * releasing a spot, and a short stay at the device paid with exact coins.
 */
module Scenarios {
  import opened Wrappers
  import opened QueueSpec
  import opened Registry
  import opened DeviceRules
  import opened Protocol
  import Service
  import Controller

  /**
   * Two users reserve in turn and the first asks again, with no device
   * attached: the first gets spot 1 (card 0), the second spot 2 (card 1),
   * and the repeat changes nothing.
   */
  method ReservationsInArrivalOrder() returns (first: Service.Reply, second: Service.Reply, repeat: Service.Reply,
                                               spots: seq<Spot>, ghost cards: seq<int>)
    ensures first == Service.Success && second == Service.Success && repeat == Service.Success
    ensures |spots| == SpotCount
    ensures spots[0].reservedBy == Some("alice") && spots[0].assignedSlot == Some(1)
    ensures spots[1].reservedBy == Some("bob") && spots[1].assignedSlot == Some(2)
    ensures spots[2] == Unreserved && spots[3] == Unreserved
    ensures cards == [2, 3]
  {
    var svc := new Service.Service([], false);
    first := svc.Reserve("alice", 0, 100);
    assert svc.spots[0].reservedBy == Some("alice") && svc.queue.Contents == [1, 2, 3];
    second := svc.Reserve("bob", 0, 110);
    assert svc.spots[1].reservedBy == Some("bob") && svc.queue.Contents == [2, 3];
    repeat := svc.Reserve("alice", 0, 120);
    spots, cards := svc.spots, svc.queue.Contents;
  }

  /**
   * The device reports the payment for card 0 after its reservation: the
   * service clears spot 1 and puts card 0 back at the end of its queue.
   */
  method PaymentReleasesSpot() returns (spot: Spot, ghost cards: seq<int>)
    ensures spot.reservedBy.None? && spot.state == 'O'
    ensures cards == [1, 2, 3, 0]
  {
    var svc := new Service.Service([], true);
    var r := svc.Reserve("alice", 0, 100);
    assert svc.queue.Contents == [1, 2, 3];
    PaidReportRoundTrip(0);
    svc.HandleLine(ServiceReads(PaidLine(0)), 200);
    spot, cards := svc.spots[0], svc.queue.Contents;
  }

  /** Power-on, the entry button at 1 s, and the exit scan of card 0 at 13 s: a 12 s stay owes 15. */
  method EnterAndScan() returns (c: Controller.Controller)
    ensures fresh(c) && fresh(c.counting) && fresh(c.awaitingPayment) && fresh(c.paymentDue)
    ensures fresh(c.coinsInserted) && fresh(c.reservedStatus) && fresh(c.queue) && fresh(c.queue.data)
    ensures c.Valid() && c.out == [] && c.queue.Contents == [1, 2, 3]
    ensures c.currentPayingIndex == 0 && c.paymentDue[0] == 15 && c.coinsInserted[0] == 0
  {
    c := new Controller.Controller();
    var dispensed := c.PressButton(1000);
    CardOfRegistered(0, []);
    assert ValidCards[0] + [] == ValidCards[0];
    c.ScanCard(ValidCards[0], 13000);
  }

  /**
   * A car enters at 1 s and its card is scanned at 13 s (a fee of 15, three
   * coins); two coins do not open the exit, the third does, `PAID:1` is
   * reported and card 0 goes back to the end of the dispense queue.
   */
  method ShortStayPaid() returns (early: seq<string>, out: seq<string>, ghost cards: seq<int>)
    ensures early == []
    ensures out == [PaidLine(0)]
    ensures cards == [1, 2, 3, 0]
  {
    var c := EnterAndScan();
    c.CoinInserted();
    c.CoinInserted();
    assert c.coinsInserted[0] == 2;
    c.ProcessPayment();
    early := c.out;
    assert c.queue.Contents == [1, 2, 3] && c.currentPayingIndex == 0 && c.paymentDue[0] == 15;
    c.CoinInserted();
    assert c.coinsInserted[0] == 3;
    c.ProcessPayment();
    out, cards := c.out, c.queue.Contents;
  }
}
