/**
 * The device's controller: the sketch's global arrays and counters as one
 * object, and one method per step of its main loop (occupancy report, host
 * commands, entry button, card scan, payment) plus the coin interrupt.
 * Hardware readings and the clock are parameters.
 */
module Controller {
  import opened Wrappers
  import opened Text
  import opened QueueSpec
  import opened DeviceRules
  import opened CardStates
  import DeviceQueue

  /** Compares the first four bytes of a scanned UID with each registered card in turn. */
  method MatchCard(uid: seq<bv8>) returns (idx: int)
    requires |uid| >= 4
    ensures idx == CardOf(uid)
  {
    var i := 0;
    while i < SlotCount
      invariant 0 <= i <= SlotCount
      invariant forall k :: 0 <= k < i ==> ValidCards[k] != uid[..4]
    {
      var matched := true;
      var j := 0;
      while j < 4
        invariant 0 <= j <= 4
        invariant matched ==> uid[..j] == ValidCards[i][..j]
        invariant !matched ==> ValidCards[i] != uid[..4]
      {
        if uid[j] != ValidCards[i][j] {
          matched := false;
          assert ValidCards[i][j] != uid[..4][j];
          break;
        }
        assert uid[..j + 1] == uid[..j] + [uid[j]];
        assert ValidCards[i][..j + 1] == ValidCards[i][..j] + [ValidCards[i][j]];
        j := j + 1;
      }
      if matched {
        assert ValidCards[i] == ValidCards[i][..4];
        return i;
      }
      i := i + 1;
    }
    return -1;
  }

  /**
   * Applies a `RESV:` payload to the reservation flags: flag `i` is set from
   * the payload's token `i` for as many tokens as there are, and the later
   * flags keep their values.
   */
  method ApplyReservations(flags: array<bool>, payload: string)
    requires flags.Length == SlotCount
    modifies flags
    ensures flags[..] == ResvWalk(old(flags[..]), payload, 0)
  {
    var rest := payload;
    var i := 0;
    while i < SlotCount
      invariant 0 <= i <= SlotCount
      invariant ResvWalk(flags[..], rest, i) == ResvWalk(old(flags[..]), payload, 0)
    {
      ghost var before := flags[..];
      var comma := IndexOf(rest, ',');
      var token: string;
      if comma == -1 {
        token := rest;
      } else {
        token := rest[..comma];
      }
      assert token == FirstToken(rest);
      token := Strip(token);
      flags[i] := token == "R";
      assert flags[..] == before[i := ReservedToken(FirstToken(rest))];
      if comma == -1 {
        break;
      }
      rest := rest[comma + 1..];
      i := i + 1;
    }
  }

  class Controller {
    const counting: array<bool>
    /** `millis()` at the start of each card's session. */
    const startTime: array<int>
    const paymentDue: array<int>
    const coinsInserted: array<int>
    /** The card whose payment is being taken, or -1. */
    var currentPayingIndex: int
    const slotStatus: array<char>
    const awaitingPayment: array<bool>
    /** The host's reservation overlay. */
    const reservedStatus: array<bool>
    const queue: DeviceQueue.CardQueue
    /** Every protocol line written to the host, oldest first. */
    var out: seq<string>

    /** The arrays have four cells and no two of the same type are shared. */
    ghost predicate Shape()
    {
      && counting.Length == SlotCount && startTime.Length == SlotCount
      && paymentDue.Length == SlotCount && coinsInserted.Length == SlotCount
      && slotStatus.Length == SlotCount && awaitingPayment.Length == SlotCount
      && reservedStatus.Length == SlotCount
      && counting != awaitingPayment && counting != reservedStatus && awaitingPayment != reservedStatus
      && startTime != paymentDue && startTime != coinsInserted && paymentDue != coinsInserted
      && queue.data != startTime && queue.data != paymentDue && queue.data != coinsInserted
    }

    ghost predicate Valid()
      reads this`currentPayingIndex, counting, startTime, paymentDue, coinsInserted, awaitingPayment, queue, queue.data
    {
      && Shape()
      && queue.Valid()
      && Accounted(queue.Contents, counting[..], awaitingPayment[..])
      && PayerOk(currentPayingIndex, awaitingPayment[..])
      && Bounded()
    }

    /** Session start times are `millis()` readings, fees fit the board's 16-bit `int`, coin counts are never negative. */
    ghost predicate Bounded()
      reads startTime, paymentDue, coinsInserted
      requires Shape()
    {
      forall c :: 0 <= c < SlotCount ==>
        0 <= startTime[c] < MillisWrap && -0x8000 <= paymentDue[c] < 0x8000 && coinsInserted[c] >= 0
    }

    /** The power-on values of the sketch's globals: no session, no payment, no overlay. */
    ghost predicate Initial()
      reads this`currentPayingIndex, counting, startTime, paymentDue, coinsInserted, slotStatus, awaitingPayment, reservedStatus
      requires Shape()
    {
      && currentPayingIndex == -1
      && forall c :: 0 <= c < SlotCount ==>
           && !counting[c] && !awaitingPayment[c] && !reservedStatus[c] && slotStatus[c] == 'O'
           && startTime[c] == 0 && paymentDue[c] == 0 && coinsInserted[c] == 0
    }

    /** The power-on state: every card in the queue, no session, no payment, no overlay. */
    constructor ()
      ensures Shape() && Initial() && Valid()
      ensures queue.Contents == [0, 1, 2, 3] && out == []
      ensures fresh(counting) && fresh(startTime) && fresh(paymentDue) && fresh(coinsInserted)
      ensures fresh(slotStatus) && fresh(awaitingPayment) && fresh(reservedStatus)
      ensures fresh(queue) && fresh(queue.data)
    {
      counting := new bool[SlotCount](_ => false);
      startTime := new int[SlotCount](_ => 0);
      paymentDue := new int[SlotCount](_ => 0);
      coinsInserted := new int[SlotCount](_ => 0);
      currentPayingIndex := -1;
      slotStatus := new char[SlotCount](_ => 'O');
      awaitingPayment := new bool[SlotCount](_ => false);
      reservedStatus := new bool[SlotCount](_ => false);
      queue := new DeviceQueue.CardQueue();
      out := [];
      new;
      InitialAccounted();
      assert counting[..] == [false, false, false, false];
      assert awaitingPayment[..] == [false, false, false, false];
    }

    /** The coin interrupt: one more coin for the card being paid, if any. */
    method CoinInserted()
      requires Valid()
      modifies coinsInserted
      ensures Valid()
      ensures currentPayingIndex == -1 ==> unchanged(coinsInserted)
      ensures currentPayingIndex != -1 ==>
        coinsInserted[..] == old(coinsInserted[..])[currentPayingIndex := old(coinsInserted[currentPayingIndex]) + 1]
    {
      if currentPayingIndex != -1 {
        coinsInserted[currentPayingIndex] := coinsInserted[currentPayingIndex] + 1;
      }
    }

    /** Sets every slot's status from its distance reading and flags, and reports them. */
    method ReportSlots(distances: seq<int>)
      requires Shape() && |distances| == SlotCount
      modifies slotStatus, this`out
      ensures forall k :: 0 <= k < SlotCount ==>
        slotStatus[k] == StatusCode(distances[k] < OccupiedBelowCm, ShowsReserved(counting[k], awaitingPayment[k], reservedStatus[k]))
      ensures out == old(out) + [SlotsLine(slotStatus[..])]
    {
      slotStatus[0] := StatusCode(distances[0] < OccupiedBelowCm, ShowsReserved(counting[0], awaitingPayment[0], reservedStatus[0]));
      slotStatus[1] := StatusCode(distances[1] < OccupiedBelowCm, ShowsReserved(counting[1], awaitingPayment[1], reservedStatus[1]));
      slotStatus[2] := StatusCode(distances[2] < OccupiedBelowCm, ShowsReserved(counting[2], awaitingPayment[2], reservedStatus[2]));
      slotStatus[3] := StatusCode(distances[3] < OccupiedBelowCm, ShowsReserved(counting[3], awaitingPayment[3], reservedStatus[3]));
      forall k | 0 <= k < SlotCount
        ensures slotStatus[k] == StatusCode(distances[k] < OccupiedBelowCm, ShowsReserved(counting[k], awaitingPayment[k], reservedStatus[k]))
      {
        assert k == 0 || k == 1 || k == 2 || k == 3;
      }
      out := out + [SlotsLine(slotStatus[..])];
    }

    /**
     * The effect of `START:<oneBased>`: a card in range that is in neither a
     * session nor a payment starts its session at `nowMs` and leaves the
     * dispense queue; otherwise the sessions, start times and queue are as
     * they were.
     */
    twostate predicate SessionStarted(oneBased: int, nowMs: int)
      reads counting, startTime, awaitingPayment, queue
      requires Shape()
    {
      if 1 <= oneBased <= SlotCount && !old(counting[oneBased - 1]) && !old(awaitingPayment[oneBased - 1]) then
        && counting[..] == old(counting[..])[oneBased - 1 := true]
        && startTime[..] == old(startTime[..])[oneBased - 1 := nowMs]
        && queue.Contents == Without(old(queue.Contents), oneBased - 1)
      else
        && unchanged(counting) && unchanged(startTime)
        && queue.Contents == old(queue.Contents)
    }

    /**
     * Starts a session for a card named by the host (1-based), unless the
     * card is already in a session or awaiting payment; the card leaves the
     * dispense queue.
     */
    method StartSession(oneBased: int, nowMs: int)
      requires Valid() && 0 <= nowMs < MillisWrap
      modifies counting, startTime, queue, queue.data
      ensures Valid()
      ensures SessionStarted(oneBased, nowMs)
      ensures 1 <= oneBased <= SlotCount && !old(counting[oneBased - 1]) && !old(awaitingPayment[oneBased - 1]) ==>
        old(oneBased - 1 in queue.Contents) && oneBased - 1 !in queue.Contents
    {
      if 1 <= oneBased <= SlotCount {
        var i := oneBased - 1;
        if !counting[i] && !awaitingPayment[i] {
          StartAccounted(queue.Contents, counting[..], awaitingPayment[..], i);
          counting[i] := true;
          startTime[i] := nowMs;
          queue.RemoveIfPresent(i);
        }
      }
    }

    /**
     * One line from the host: a `RESV:` payload replaces the reservation
     * overlay, a `START:` command starts a session, anything else is ignored.
     */
    method HandleHostLine(raw: string, nowMs: int)
      requires Valid() && 0 <= nowMs < MillisWrap
      modifies reservedStatus, counting, startTime, queue, queue.data
      ensures Valid()
      ensures match ParseHostLine(raw)
        case Reserve(payload) =>
          && reservedStatus[..] == ResvApplied(old(reservedStatus[..]), Split(payload, ','))
          && unchanged(counting) && unchanged(startTime)
          && queue.Contents == old(queue.Contents)
        case StartTimer(n) => unchanged(reservedStatus) && SessionStarted(n, nowMs)
        case Unrecognised =>
          && unchanged(reservedStatus)
          && unchanged(counting) && unchanged(startTime)
          && queue.Contents == old(queue.Contents)
    {
      match ParseHostLine(raw) {
        case Reserve(payload) =>
          ApplyReservations(reservedStatus, payload);
          ResvWalkApplies(old(reservedStatus[..]), payload);
        case StartTimer(oneBased) =>
          StartSession(oneBased, nowMs);
        case Unrecognised =>
      }
    }

    /**
     * The entry button: the next card in the dispense queue starts a timed
     * session; with the queue empty nothing changes.
     */
    method PressButton(nowMs: int) returns (dispensed: bool)
      requires Valid() && 0 <= nowMs < MillisWrap
      modifies queue, counting, startTime
      ensures Valid()
      ensures dispensed <==> old(queue.Contents) != []
      ensures queue.Contents == Rest(old(queue.Contents))
      ensures dispensed ==>
        var card := Front(old(queue.Contents));
        && counting[..] == old(counting[..])[card := true]
        && startTime[..] == old(startTime[..])[card := nowMs]
      ensures !dispensed ==> unchanged(counting) && unchanged(startTime)
    {
      if queue.Contents != [] {
        DispenseAccounted(queue.Contents, counting[..], awaitingPayment[..]);
      }
      var nextCard := queue.Pop();
      dispensed := nextCard != -1;
      if dispensed {
        counting[nextCard] := true;
        startTime[nextCard] := nowMs;
      }
    }

    /**
     * A card read at the exit: a recognised card in a session stops its
     * timer, owes the fee for the time since its session began (as the
     * board's 16-bit `int` stores it), and becomes the card being paid unless
     * another card already is.
     */
    method ScanCard(uid: seq<bv8>, nowMs: int)
      requires Valid() && |uid| >= 4 && 0 <= nowMs < MillisWrap
      modifies counting, awaitingPayment, paymentDue, coinsInserted, this`currentPayingIndex
      ensures Valid()
      ensures var card := CardOf(uid);
        if card != -1 && old(counting[card]) then
          && counting[..] == old(counting[..])[card := false]
          && awaitingPayment[..] == old(awaitingPayment[..])[card := true]
          && paymentDue[..] == old(paymentDue[..])[card := PaymentDueAsWritten(Elapsed(nowMs, old(startTime[card])))]
          && coinsInserted[..] == old(coinsInserted[..])[card := 0]
          && currentPayingIndex == (if old(currentPayingIndex) == -1 then card else old(currentPayingIndex))
        else
          && unchanged(counting) && unchanged(awaitingPayment)
          && unchanged(paymentDue) && unchanged(coinsInserted)
          && currentPayingIndex == old(currentPayingIndex)
    {
      var cardIndex := MatchCard(uid);
      if cardIndex != -1 && counting[cardIndex] {
        ScanAccounted(queue.Contents, counting[..], awaitingPayment[..], currentPayingIndex, cardIndex);
        var totalTime := Elapsed(nowMs, startTime[cardIndex]);
        counting[cardIndex] := false;
        paymentDue[cardIndex] := PaymentDueAsWritten(totalTime);
        coinsInserted[cardIndex] := 0;
        awaitingPayment[cardIndex] := true;
        if currentPayingIndex == -1 {
          currentPayingIndex := cardIndex;
        }
        assert counting[..] == old(counting[..])[cardIndex := false];
        assert awaitingPayment[..] == old(awaitingPayment[..])[cardIndex := true];
      }
    }

    /**
     * The pay station: once the coins cover the card being paid, the payment
     * completes and the first card still awaiting payment (by index) is
     * served next.
     */
    method ProcessPayment()
      requires Valid()
      modifies awaitingPayment, paymentDue, coinsInserted, this`currentPayingIndex, queue, queue.data, reservedStatus, this`out
      ensures Valid()
      ensures var idx := old(currentPayingIndex);
        if idx != -1 && PaidInFull(old(paymentDue[idx]), old(coinsInserted[idx])) then
          && awaitingPayment[..] == old(awaitingPayment[..])[idx := false]
          && paymentDue[..] == old(paymentDue[..])[idx := 0]
          && coinsInserted[..] == old(coinsInserted[..])[idx := 0]
          && queue.Contents == old(queue.Contents) + [idx]
          && reservedStatus[..] == old(reservedStatus[..])[idx := false]
          && out == old(out) + [PaidLine(idx)]
          && currentPayingIndex == FirstSet(awaitingPayment[..])
        else
          && unchanged(awaitingPayment)
          && unchanged(paymentDue) && unchanged(coinsInserted)
          && queue.Contents == old(queue.Contents) && unchanged(reservedStatus)
          && out == old(out) && currentPayingIndex == old(currentPayingIndex)
      ensures out == old(out) || (0 <= old(currentPayingIndex) && out == old(out) + [PaidLine(old(currentPayingIndex))])
    {
      if currentPayingIndex == -1 {
        return;
      }
      var idx := currentPayingIndex;
      var coinsNeeded := TruncDiv(paymentDue[idx], CoinValue);
      if coinsInserted[idx] < coinsNeeded {
        return;
      }
      CompletePayment(idx);
      NextPayer();
    }

    /**
     * A completed payment: the card's payment state is cleared, it goes back
     * to the end of the dispense queue, its reservation overlay is dropped,
     * and `PAID:` is reported; no card is being paid until the next is chosen.
     */
    method CompletePayment(idx: int)
      requires Valid() && idx == currentPayingIndex != -1
      modifies awaitingPayment, paymentDue, coinsInserted, this`currentPayingIndex, queue, queue.data, reservedStatus, this`out
      ensures Shape() && queue.Valid() && Bounded() && currentPayingIndex == -1
      ensures Accounted(queue.Contents, counting[..], awaitingPayment[..])
      ensures awaitingPayment[..] == old(awaitingPayment[..])[idx := false]
      ensures paymentDue[..] == old(paymentDue[..])[idx := 0]
      ensures coinsInserted[..] == old(coinsInserted[..])[idx := 0]
      ensures queue.Contents == old(queue.Contents) + [idx]
      ensures reservedStatus[..] == old(reservedStatus[..])[idx := false]
      ensures out == old(out) + [PaidLine(idx)]
    {
      PaidAccounted(queue.Contents, counting[..], awaitingPayment[..], idx);
      awaitingPayment[idx] := false;
      paymentDue[idx] := 0;
      coinsInserted[idx] := 0;
      currentPayingIndex := -1;
      queue.PushReturned(idx);
      reservedStatus[idx] := false;
      out := out + [PaidLine(idx)];
    }

    /** Serves the first card awaiting payment, by index, if there is one. */
    method NextPayer()
      requires Shape() && currentPayingIndex == -1
      modifies this`currentPayingIndex
      ensures currentPayingIndex == FirstSet(awaitingPayment[..])
      ensures PayerOk(currentPayingIndex, awaitingPayment[..])
    {
      NextPayerOk(awaitingPayment[..]);
      var i := 0;
      while i < SlotCount
        invariant 0 <= i <= SlotCount && currentPayingIndex == -1
        invariant forall k :: 0 <= k < i ==> !awaitingPayment[k]
      {
        if awaitingPayment[i] {
          currentPayingIndex := i;
          return;
        }
        i := i + 1;
      }
    }

    /** Handles the host's pending lines in the order they arrived. */
    method ReadHostCommands(hostLines: seq<string>, nowMs: int)
      requires Valid() && 0 <= nowMs < MillisWrap
      modifies reservedStatus, counting, startTime, queue, queue.data
      ensures Valid()
    {
      var j := 0;
      while j < |hostLines|
        invariant 0 <= j <= |hostLines| && Valid()
      {
        HandleHostLine(hostLines[j], nowMs);
        j := j + 1;
      }
    }

    /**
     * One pass of the main loop: report the slots, act on the host's lines,
     * then the entry button (a dispensed card ends the pass), then a scanned
     * card, then the pay station. Sensor readings, the host's lines, the
     * button, the card reader and the clock are the inputs.
     */
    method Iterate(distances: seq<int>, hostLines: seq<string>, buttonPressed: bool, scanned: Option<seq<bv8>>, nowMs: int)
      requires Valid() && |distances| == SlotCount && 0 <= nowMs < MillisWrap
      requires scanned.Some? ==> |scanned.value| >= 4
      modifies slotStatus, this`out, reservedStatus, counting, startTime, queue, queue.data
      modifies awaitingPayment, paymentDue, coinsInserted, this`currentPayingIndex
      ensures Valid()
      ensures forall k :: 0 <= k < SlotCount ==>
        slotStatus[k] == StatusCode(distances[k] < OccupiedBelowCm,
                                    ShowsReserved(old(counting[k]), old(awaitingPayment[k]), old(reservedStatus[k])))
      ensures || out == old(out) + [SlotsLine(slotStatus[..])]
              || exists c :: 0 <= c < SlotCount && out == old(out) + [SlotsLine(slotStatus[..]), PaidLine(c)]
    {
      ReportSlots(distances);
      ghost var shown := slotStatus[..];
      ghost var reported := out;
      ReadHostCommands(hostLines, nowMs);
      if buttonPressed {
        var dispensed := PressButton(nowMs);
        if dispensed {
          assert slotStatus[..] == shown;
          return;
        }
      }
      ExitStation(scanned, nowMs);
      assert slotStatus[..] == shown;
      if out != reported {
        var c :| 0 <= c < SlotCount && out == reported + [PaidLine(c)];
        assert reported + [PaidLine(c)] == old(out) + [SlotsLine(shown), PaidLine(c)];
      }
    }

    /** The exit side of one pass: a scanned card, if any, then the pay station. */
    method ExitStation(scanned: Option<seq<bv8>>, nowMs: int)
      requires Valid() && 0 <= nowMs < MillisWrap
      requires scanned.Some? ==> |scanned.value| >= 4
      modifies counting, awaitingPayment, paymentDue, coinsInserted, this`currentPayingIndex
      modifies queue, queue.data, reservedStatus, this`out
      ensures Valid()
      ensures || out == old(out)
              || exists c :: 0 <= c < SlotCount && out == old(out) + [PaidLine(c)]
    {
      if scanned.Some? {
        ScanCard(scanned.value, nowMs);
      }
      ProcessPayment();
    }
  }
}
