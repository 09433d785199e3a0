/**
 * The reservation service's shared state and the operations on it: the
 * request handlers (reserve, cancel, arrival), the capacity-hold estimator
 * and the handler for lines read from the device. Every handler runs as one
 * atomic step; outbound lines are appended to `sent`.
 */
module Service {
  import opened Wrappers
  import opened Text
  import opened QueueSpec
  import opened Registry
  import ServerQueue

  /** Why a request is refused. */
  datatype Failure =
    | NoAvailableCards
    | CancelNotAllowed
    | NoReservedSpot
    | NotYourReservation
    | DeviceNotConnected

  datatype Reply = Success | Refused(reason: Failure)

  /**
   * A send guarded by a "last line sent" cache: the line goes out, and is
   * remembered, only when the link is up and it differs from the cached one.
   */
  function Dedup(sent: seq<string>, last: Option<string>, linkUp: bool, line: string): (r: (seq<string>, Option<string>))
    ensures r.0 == sent || r.0 == sent + [line]
    ensures r.0 != sent <==> linkUp && last != Some(line)
    ensures r.1 == if r.0 != sent then Some(line) else last
  {
    if linkUp && last != Some(line) then (sent + [line], Some(line)) else (sent, last)
  }

  /** Sending the same line twice through the cache sends it at most once. */
  lemma DedupIdempotent(sent: seq<string>, last: Option<string>, linkUp: bool, line: string)
    ensures var (s1, l1) := Dedup(sent, last, linkUp, line);
      Dedup(s1, l1, linkUp, line) == (s1, l1)
  {
  }

  /** Every spot after the sweep: owned spots untouched, the others swept. */
  function SweptAll(spots: seq<Spot>): (r: seq<Spot>)
    ensures |r| == |spots|
    ensures forall i :: 0 <= i < |spots| ==> r[i] == if Owned(spots[i]) then spots[i] else Swept(spots[i])
    ensures forall i :: 0 <= i < |spots| ==>
      && r[i].state == spots[i].state && r[i].reservedBy == spots[i].reservedBy && r[i].reservedAt == spots[i].reservedAt
      && (!Owned(r[i]) ==> !IsSet(r[i].arrivalTs) && !IsSet(r[i].assignedSlot) && !r[i].arrived)
  {
    seq(|spots|, i requires 0 <= i < |spots| => if Owned(spots[i]) then spots[i] else Swept(spots[i]))
  }

  /** A second sweep finds nothing left to clear. */
  lemma SweptAllIdempotent(spots: seq<Spot>)
    ensures SweptAll(SweptAll(spots)) == SweptAll(spots)
  {
    var once := SweptAll(spots);
    forall i | 0 <= i < |spots| ensures SweptAll(once)[i] == once[i] {
      if !Owned(spots[i]) {
        assert Swept(Swept(spots[i])) == Swept(spots[i]);
      }
    }
  }

  /** The sweep touches only spots that hold nothing, so the hold count is unchanged. */
  lemma {:induction false} SweptAllHoldCount(spots: seq<Spot>, now: int)
    ensures HoldCount(SweptAll(spots), now) == HoldCount(spots, now)
    decreases |spots|
  {
    if spots != [] {
      SweptAllHoldCount(spots[1..], now);
      assert SweptAll(spots)[1..] == SweptAll(spots[1..]);
    }
  }

  /** A spot after a `PAID` report: reservation cleared, 'O' unless sensed occupied. */
  function Released(s: Spot): (r: Spot)
    ensures r.reservedBy.None? && r.reservedAt.None? && r.arrivalTs.None? && r.assignedSlot.None? && !r.arrived
    ensures r.state == if s.state == 'X' then 'X' else 'O'
    ensures !Owned(r) && forall now :: !Holds(r, now)
    ensures Swept(r) == r
  {
    Spot(if s.state != 'X' then 'O' else s.state, None, None, None, None, false)
  }

  /** The spots after a `SLOTS:` report: token `i` merged into spot `i`, for up to four tokens. */
  function ApplySlots(spots: seq<Spot>, tokens: seq<string>): (r: seq<Spot>)
    ensures |r| == |spots|
    ensures forall i :: 0 <= i < |spots| ==>
      r[i] == if i < |tokens| then spots[i].(state := MergedState(spots[i], tokens[i])) else spots[i]
    ensures forall i :: 0 <= i < |spots| ==> r[i] == spots[i].(state := r[i].state)
    ensures forall i :: 0 <= i < |spots| && r[i].state != spots[i].state ==> i < |tokens| && tokens[i] == [r[i].state]
  {
    seq(|spots|, i requires 0 <= i < |spots| =>
      if i < |tokens| then spots[i].(state := MergedState(spots[i], tokens[i])) else spots[i])
  }

  /** An occupancy report never takes a spot a user owns out of 'R' except to 'X'. */
  lemma ApplySlotsKeepsReservations(spots: seq<Spot>, tokens: seq<string>)
    ensures forall i :: 0 <= i < |spots| && spots[i].state == 'R' && Owned(spots[i]) ==>
      ApplySlots(spots, tokens)[i].state in {'R', 'X'}
      && ApplySlots(spots, tokens)[i].reservedBy == spots[i].reservedBy
  {
    forall i | 0 <= i < |spots| && spots[i].state == 'R' && Owned(spots[i])
      ensures ApplySlots(spots, tokens)[i].state in {'R', 'X'}
    {
      if i < |tokens| {
        MergedStateProtectsReservation(spots[i], tokens[i]);
      }
    }
  }

  /**
   * A spot just reserved for `user` with card `card`: owner, reservation
   * time, slot number card + 1, and the expected arrival only when positive;
   * the sensed state and the arrival flag are left as they were.
   */
  function ReservedSpot(s: Spot, user: string, now: int, arrivalTs: int, card: nat): (r: Spot)
    ensures r.reservedBy == Some(user)
    ensures Owned(r) <==> user != ""
    ensures r.reservedAt == Some(now) && r.assignedSlot == Some(card + 1)
    ensures r.arrivalTs == (if arrivalTs > 0 then Some(arrivalTs) else None)
    ensures r.state == s.state && r.arrived == s.arrived
    ensures forall t :: Holds(r, t) <==> user != "" && !s.arrived && (arrivalTs <= 0 || arrivalTs - t <= HoldWindow)
  {
    s.(reservedBy := Some(user), reservedAt := Some(now),
       arrivalTs := if arrivalTs > 0 then Some(arrivalTs) else None,
       assignedSlot := Some(card + 1))
  }

  /** The timer directive `START:<id>` (composed by the service but sent from nowhere). */
  function StartLine(id: nat): (line: string)
    ensures StartsWith(line, "START:") && line[|line| - 1] == '\n'
    ensures AllDigits(line[6..|line| - 1]) && DigitsValue(line[6..|line| - 1]) == id
  {
    NatToStringValue(id);
    var line := "START:" + NatToString(id) + "\n";
    assert line[6..|line| - 1] == NatToString(id);
    line
  }

  /** The arrival directive `HERE:<id>`. */
  function HereLine(id: nat): (line: string)
    ensures StartsWith(line, "HERE:") && line[|line| - 1] == '\n'
    ensures AllDigits(line[5..|line| - 1]) && DigitsValue(line[5..|line| - 1]) == id
  {
    NatToStringValue(id);
    var line := "HERE:" + NatToString(id) + "\n";
    assert line[5..|line| - 1] == NatToString(id);
    line
  }

  /** The spot an arrival request names: by id when one is given (non-zero), else the user's own. */
  function ArrivalTarget(spots: seq<Spot>, spotId: int, user: string): (t: Option<nat>)
    ensures t.Some? ==> t.value < |spots|
    ensures spotId == 0 ==> t == FirstReservedBy(spots, user)
    ensures spotId != 0 ==> (t.Some? <==> 1 <= spotId <= |spots|)
    ensures spotId != 0 && t.Some? ==> t.value + 1 == spotId
  {
    if spotId != 0 then (if 1 <= spotId <= |spots| then Some(spotId - 1) else None)
    else FirstReservedBy(spots, user)
  }

  class Service {
    var spots: seq<Spot>
    const queue: ServerQueue.CardQueue
    /** The customer records, in the order the customer table lists them. */
    var customers: seq<Customer>
    /** Whether the serial link is open: every send succeeds exactly when it is. */
    var linkUp: bool
    var lastResvLine: Option<string>
    var lastCapSent: Option<string>
    /** Every line written to the device, oldest first. */
    var sent: seq<string>

    ghost predicate Valid()
      reads this, queue, queue.data
    {
      |spots| == SpotCount && queue.Valid() && InRange(queue.Contents)
    }

    constructor (customers: seq<Customer>, linkUp: bool)
      ensures Valid() && fresh(queue) && fresh(queue.data)
      ensures spots == InitialSpots && queue.Contents == [0, 1, 2, 3]
      ensures this.customers == customers && this.linkUp == linkUp
      ensures lastResvLine.None? && lastCapSent.None? && sent == []
    {
      spots := InitialSpots;
      queue := new ServerQueue.CardQueue();
      this.customers := customers;
      this.linkUp := linkUp;
      lastResvLine, lastCapSent := None, None;
      sent := [];
    }

    /** Writes one whole line; fails (and writes nothing) when the link is down. */
    method Send(line: string) returns (ok: bool)
      modifies this`sent
      ensures ok == linkUp
      ensures sent == old(sent) + (if ok then [line] else [])
    {
      ok := linkUp;
      if ok {
        sent := sent + [line];
      }
    }

    /** Sends `CAP:<n>` for the clamped count, unless it is the line last sent. */
    method PushCapacityHold(holdCount: int)
      modifies this`sent, this`lastCapSent
      ensures (sent, lastCapSent) == Dedup(old(sent), old(lastCapSent), linkUp, CapLine(Clamp(holdCount)))
    {
      if !linkUp {
        return;
      }
      var n := Clamp(holdCount);
      var line := CapLine(n);
      if Some(line) != lastCapSent {
        var ok := Send(line);
        if ok {
          lastCapSent := Some(line);
        }
      }
    }

    /** Sends the reservation overlay, unless it is the line last sent. */
    method PushReservations()
      modifies this`sent, this`lastResvLine
      ensures (sent, lastResvLine) == Dedup(old(sent), old(lastResvLine), linkUp, ResvLine(spots))
    {
      if !linkUp {
        return;
      }
      var line := ResvLine(spots);
      if Some(line) != lastResvLine {
        var ok := Send(line);
        if ok {
          lastResvLine := Some(line);
        }
      }
    }

    /** Sends the identity overlay (never cached). */
    method PushRfidData()
      modifies this`sent
      ensures sent == old(sent) + (if linkUp then [RfidLine(customers, spots)] else [])
    {
      if !linkUp {
        return;
      }
      var line := RfidLine(customers, spots);
      var _ := Send(line);
    }

    /**
     * The capacity-hold estimator: counts the spots that hold a unit at
     * `now`, sweeps stale fields off the unreserved spots, and pushes the
     * clamped count.
     */
    method EnforceHolds(now: int)
      requires Valid()
      modifies this`spots, this`sent, this`lastCapSent
      ensures Valid()
      ensures spots == SweptAll(old(spots))
      ensures (sent, lastCapSent) ==
        Dedup(old(sent), old(lastCapSent), linkUp, CapLine(Clamp(HoldCount(old(spots), now))))
    {
      var holdCount := 0;
      var i := 0;
      while i < |spots|
        modifies this`spots
        invariant 0 <= i <= |spots| == SpotCount
        invariant holdCount == HoldCount(old(spots)[..i], now)
        invariant forall j :: 0 <= j < i ==> spots[j] == SweptAll(old(spots))[j]
        invariant forall j :: i <= j < |spots| ==> spots[j] == old(spots)[j]
      {
        var s := spots[i];
        HoldCountAppend(old(spots)[..i], [s], now);
        assert old(spots)[..i + 1] == old(spots)[..i] + [s];
        if Owned(s) {
          if !s.arrived {
            match s.arrivalTs {
              case None =>
                holdCount := holdCount + 1;
              case Some(arrival) =>
                if arrival - now <= HoldWindow {
                  holdCount := holdCount + 1;
                }
            }
          }
        } else {
          if IsSet(s.arrivalTs) {
            s := s.(arrivalTs := None);
          }
          if IsSet(s.assignedSlot) {
            s := s.(assignedSlot := None);
          }
          if s.arrived {
            s := s.(arrived := false);
          }
          spots := spots[i := s];
        }
        i := i + 1;
      }
      assert old(spots)[..i] == old(spots);
      assert spots == SweptAll(old(spots));
      PushCapacityHold(holdCount);
    }

    /** Handles one stripped line read from the device. */
    method HandleLine(line: string, now: int)
      requires Valid()
      modifies this`spots, this`sent, this`lastResvLine, this`lastCapSent, queue, queue.data
      ensures Valid()
      ensures match Decode(line)
        case SlotsReport(tokens) =>
          && spots == ApplySlots(old(spots), tokens)
          && queue.Contents == old(queue.Contents)
          && sent == old(sent) && lastResvLine == old(lastResvLine) && lastCapSent == old(lastCapSent)
        case PaidReport(idx) =>
          var released := old(spots)[idx := Released(old(spots)[idx])];
          var (sent1, resv1) := Dedup(old(sent), old(lastResvLine), linkUp, ResvLine(released));
          && spots == SweptAll(released)
          && queue.Contents == PushedBack(old(queue.Contents), idx)
          && lastResvLine == resv1
          && (sent, lastCapSent) == Dedup(sent1, old(lastCapSent), linkUp, CapLine(Clamp(HoldCount(released, now))))
        case DispReport(card) =>
          && spots == old(spots)
          && queue.Contents == Without(old(queue.Contents), card)
          && sent == old(sent) && lastResvLine == old(lastResvLine) && lastCapSent == old(lastCapSent)
        case Ignored =>
          && spots == old(spots) && queue.Contents == old(queue.Contents)
          && sent == old(sent) && lastResvLine == old(lastResvLine) && lastCapSent == old(lastCapSent)
    {
      match Decode(line) {
        case SlotsReport(tokens) =>
          var n := if |tokens| < SpotCount then |tokens| else SpotCount;
          var i := 0;
          while i < n
            modifies this`spots
            invariant 0 <= i <= n && |spots| == SpotCount
            invariant forall j :: 0 <= j < i ==> spots[j] == ApplySlots(old(spots), tokens)[j]
            invariant forall j :: i <= j < SpotCount ==> spots[j] == old(spots)[j]
          {
            var s := spots[i];
            var token := tokens[i];
            if token == "X" {
              s := s.(state := 'X');
            } else if token == "R" {
              s := s.(state := 'R');
            } else if token == "O" {
              if s.state != 'R' || !Owned(s) {
                s := s.(state := 'O');
              }
            }
            spots := spots[i := s];
            i := i + 1;
          }
          assert spots == ApplySlots(old(spots), tokens);
        case PaidReport(idx) =>
          var s := spots[idx];
          s := s.(reservedBy := None, reservedAt := None, arrivalTs := None, assignedSlot := None, arrived := false);
          if s.state != 'X' {
            s := s.(state := 'O');
          }
          spots := spots[idx := s];
          queue.PushReturned(idx);
          assert InRange(queue.Contents);
          PushReservations();
          EnforceHolds(now);
        case DispReport(card) =>
          queue.RemoveIfPresent(card);
          WithoutInRange(old(queue.Contents), card);
        case Ignored =>
      }
    }

    /**
     * A reservation request: succeeds without change when the user already
     * holds a spot; otherwise takes the next card and reserves the spot of
     * that card, or fails when no card is left.
     */
    method Reserve(user: string, arrivalTs: int, now: int) returns (r: Reply)
      requires Valid()
      modifies this`spots, this`sent, this`lastResvLine, queue
      ensures Valid()
      ensures r == Success || r == Refused(NoAvailableCards)
      ensures r == Success ==> FirstReservedBy(spots, user).Some?
      ensures old(FirstReservedBy(spots, user)).Some? ==>
        && r == Success && spots == old(spots) && queue.Contents == old(queue.Contents)
        && sent == old(sent) && lastResvLine == old(lastResvLine)
      ensures old(FirstReservedBy(spots, user)).None? && old(queue.Contents) == [] ==>
        && r == Refused(NoAvailableCards) && spots == old(spots) && queue.Contents == []
        && sent == old(sent) && lastResvLine == old(lastResvLine)
      ensures old(FirstReservedBy(spots, user)).None? && old(queue.Contents) != [] ==>
        var card := old(queue.Contents)[0];
        var (sent1, resv1) := Dedup(old(sent), old(lastResvLine), linkUp, ResvLine(spots));
        && r == Success
        && queue.Contents == old(queue.Contents)[1..]
        && card < SpotCount
        && spots == old(spots)[card := ReservedSpot(old(spots)[card], user, now, arrivalTs, card)]
        && lastResvLine == resv1
        && sent == sent1 + (if linkUp then [RfidLine(customers, spots)] else [])
    {
      var mine := FirstReservedBy(spots, user);
      if mine.Some? {
        return Success;
      }
      var card := queue.Pop();
      if card == -1 {
        return Refused(NoAvailableCards);
      }
      RestKeeps(old(queue.Contents));
      var spot := spots[card];
      spot := spot.(reservedBy := Some(user), reservedAt := Some(now),
                    arrivalTs := if arrivalTs > 0 then Some(arrivalTs) else None,
                    assignedSlot := Some(card + 1));
      spots := spots[card := spot];
      assert spots[card].reservedBy == Some(user);
      PushReservations();
      PushRfidData();
      return Success;
    }

    /** Cancellation is refused, always, and changes nothing. */
    method Cancel() returns (r: Reply)
      ensures r == Refused(CancelNotAllowed)
    {
      r := Refused(CancelNotAllowed);
    }

    /**
     * An arrival request for the spot `spotId` (0: the user's own spot):
     * refused unless that spot exists and is reserved by `user`, and unless
     * the device is connected; otherwise marks the spot arrived at `now`,
     * sends `HERE:<id>` and re-runs the estimator.
     */
    method ImHere(spotId: int, user: string, now: int) returns (r: Reply)
      requires Valid()
      modifies this`spots, this`sent, this`lastCapSent
      ensures Valid()
      ensures var t := ArrivalTarget(old(spots), spotId, user);
        && (t.None? ==> r == Refused(NoReservedSpot))
        && (t.Some? && old(spots)[t.value].reservedBy != Some(user) ==> r == Refused(NotYourReservation))
        && (t.Some? && old(spots)[t.value].reservedBy == Some(user) && !linkUp ==> r == Refused(DeviceNotConnected))
        && (r == Success <==> t.Some? && old(spots)[t.value].reservedBy == Some(user) && linkUp)
      ensures r != Success ==> spots == old(spots) && sent == old(sent) && lastCapSent == old(lastCapSent)
      ensures r == Success ==>
        var i := ArrivalTarget(old(spots), spotId, user).value;
        var here := old(spots)[i := old(spots)[i].(arrived := true, arrivalTs := Some(now))];
        && spots == SweptAll(here)
        && (sent, lastCapSent) ==
             Dedup(old(sent) + [HereLine(i + 1)], old(lastCapSent), linkUp, CapLine(Clamp(HoldCount(here, now))))
        && HoldCount(spots, now) == old(HoldCount(spots, now)) - (if Holds(old(spots)[i], now) then 1 else 0)
    {
      var target := ArrivalTarget(spots, spotId, user);
      if target.None? {
        return Refused(NoReservedSpot);
      }
      var i := target.value;
      if spots[i].reservedBy != Some(user) {
        return Refused(NotYourReservation);
      }
      if !linkUp {
        return Refused(DeviceNotConnected);
      }
      ghost var before := spots;
      spots := spots[i := spots[i].(arrived := true, arrivalTs := Some(now))];
      HoldCountUpdate(before, i, spots[i], now);
      SweptAllHoldCount(spots, now);
      var _ := Send(HereLine(i + 1));
      EnforceHolds(now);
      return Success;
    }
  }
}
