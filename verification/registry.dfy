/**
 * The service's spot registry as values: the four spot records, the
 * capacity-hold count derived from them, the lines the service composes for
 * the device, and the decoding of the lines the device sends back.
 */
module Registry {
  import opened Wrappers
  import opened Text
  import opened QueueSpec

  /** Spots 1..4; spot `i + 1` is kept at index `i` and is reserved with card `i`. */
  const SpotCount: nat := 4
  /** The look-ahead window of the capacity hold: ten minutes, in seconds. */
  const HoldWindow: int := 10 * 60

  /**
   * One spot record. `state` is one of 'O' (open), 'X' (occupied) and 'R'
   * (reserved or session active); times are whole seconds; `arrived` false
   * stands for both an absent key and None.
   */
  datatype Spot = Spot(
    state: char,
    reservedBy: Option<string>,
    reservedAt: Option<int>,
    arrivalTs: Option<int>,
    assignedSlot: Option<int>,
    arrived: bool)

  const Unreserved: Spot := Spot('O', None, None, None, None, false)

  const InitialSpots: seq<Spot> := [Unreserved, Unreserved, Unreserved, Unreserved]

  /** `s.get("reserved_by")` is truthy: an owner that is not the empty string. */
  predicate Owned(s: Spot) {
    s.reservedBy.Some? && s.reservedBy.value != []
  }

  /** A number field is truthy: present and not zero. */
  predicate IsSet(o: Option<int>) {
    o.Some? && o.value != 0
  }

  /**
   * A spot holds a capacity unit: reserved, not arrived, and either no
   * arrival time or one at most ten minutes away (a time already past still holds).
   */
  predicate Holds(s: Spot, now: int) {
    Owned(s) && !s.arrived && (s.arrivalTs.None? || s.arrivalTs.value - now <= HoldWindow)
  }

  /** The number of spots that hold a capacity unit. */
  function HoldCount(spots: seq<Spot>, now: int): (n: nat)
    ensures n <= |spots|
  {
    if spots == [] then 0
    else (if Holds(spots[0], now) then 1 else 0) + HoldCount(spots[1..], now)
  }

  lemma {:induction false} HoldCountAppend(a: seq<Spot>, b: seq<Spot>, now: int)
    ensures HoldCount(a + b, now) == HoldCount(a, now) + HoldCount(b, now)
    decreases |a|
  {
    if a == [] {
      assert a + b == b;
    } else {
      assert (a + b)[0] == a[0];
      assert (a + b)[1..] == a[1..] + b;
      HoldCountAppend(a[1..], b, now);
    }
  }

  /** The count is zero exactly when no spot holds. */
  lemma {:induction false} HoldCountZero(spots: seq<Spot>, now: int)
    ensures HoldCount(spots, now) == 0 <==> forall i :: 0 <= i < |spots| ==> !Holds(spots[i], now)
    decreases |spots|
  {
    if spots != [] {
      HoldCountZero(spots[1..], now);
      assert forall i :: 1 <= i < |spots| ==> spots[i] == spots[1..][i - 1];
    }
  }

  /** Replacing one spot changes the count by that spot's contribution only. */
  lemma {:induction false} HoldCountUpdate(spots: seq<Spot>, i: nat, s: Spot, now: int)
    requires i < |spots|
    ensures HoldCount(spots[i := s], now) ==
      HoldCount(spots, now) - (if Holds(spots[i], now) then 1 else 0) + (if Holds(s, now) then 1 else 0)
    decreases |spots|
  {
    if i > 0 {
      assert spots[i := s][1..] == spots[1..][i - 1 := s];
      HoldCountUpdate(spots[1..], i - 1, s, now);
    } else {
      assert spots[i := s][1..] == spots[1..];
    }
  }

  /** As time passes, reservations only come into the window: the count never falls. */
  lemma {:induction false} HoldCountMonotone(spots: seq<Spot>, earlier: int, later: int)
    requires earlier <= later
    ensures HoldCount(spots, earlier) <= HoldCount(spots, later)
    decreases |spots|
  {
    if spots != [] {
      HoldCountMonotone(spots[1..], earlier, later);
    }
  }

  /** The clamp applied before sending: `max(0, min(4, n))`. */
  function Clamp(n: int): (r: nat)
    ensures r <= SpotCount
    ensures 0 <= n <= SpotCount ==> r == n
    ensures n < 0 ==> r == 0
    ensures n > SpotCount ==> r == SpotCount
  {
    if n < 0 then 0 else if n > SpotCount then SpotCount else n
  }

  /** The capacity-hold directive `CAP:<n>`. */
  function CapLine(n: nat): (line: string)
    requires n <= SpotCount
    ensures |line| == 6 && StartsWith(line, "CAP:") && line[5] == '\n'
    ensures IsDigit(line[4]) && DigitValue(line[4]) == n
  {
    "CAP:" + NatToString(n) + "\n"
  }

  /** Comparing lines, as the dedup cache does, is comparing the clamped counts. */
  lemma CapLineInjective(a: nat, b: nat)
    requires a <= SpotCount && b <= SpotCount
    ensures CapLine(a) == CapLine(b) <==> a == b
  {
    if CapLine(a) == CapLine(b) {
      assert CapLine(a)[4] == CapLine(b)[4];
    }
  }

  /**
   * What the sweep of an unreserved spot leaves: arrival time, assigned slot
   * and arrived flag cleared when they were truthy, the rest as it was.
   */
  function Swept(s: Spot): (r: Spot)
    ensures !IsSet(r.arrivalTs) && !IsSet(r.assignedSlot) && !r.arrived
    ensures r.state == s.state && r.reservedBy == s.reservedBy && r.reservedAt == s.reservedAt
    ensures !IsSet(s.arrivalTs) ==> r.arrivalTs == s.arrivalTs
    ensures !IsSet(s.assignedSlot) ==> r.assignedSlot == s.assignedSlot
  {
    s.(arrivalTs := if IsSet(s.arrivalTs) then None else s.arrivalTs,
       assignedSlot := if IsSet(s.assignedSlot) then None else s.assignedSlot,
       arrived := false)
  }

  /** The reservation overlay: one 'O' per spot, whatever the spots hold. */
  function ResvLine(spots: seq<Spot>): string {
    "RESV:" + Join(seq(|spots|, _ => "O"), ',') + "\n"
  }

  /** The overlay never marks a spot: for four spots it is always `RESV:O,O,O,O`. */
  lemma ResvLineConstant(spots: seq<Spot>)
    requires |spots| == SpotCount
    ensures ResvLine(spots) == "RESV:O,O,O,O\n"
  {
    var codes := seq(|spots|, _ => "O");
    assert codes == ["O", "O", "O", "O"];
    assert Join(codes[3..], ',') == "O";
    assert Join(codes[2..], ',') == "O,O";
    assert Join(codes[1..], ',') == "O,O,O";
    assert Join(codes, ',') == "O,O,O,O";
  }

  /** A customer record: the fields the identity overlay reads. */
  datatype Customer = Customer(email: string, rfid: string, password: Option<string>)

  /** Both a card id and a password are set (non-empty). */
  predicate Activated(c: Customer) {
    c.rfid != [] && c.password.Some? && c.password.value != []
  }

  predicate HasReservation(spots: seq<Spot>, email: string) {
    exists i :: 0 <= i < |spots| && spots[i].reservedBy == Some(email)
  }

  /** One `cardid:email` pair, with the spaces removed from the card id. */
  function PairText(c: Customer): string {
    RemoveSpaces(c.rfid) + ":" + c.email
  }

  /** The pairs of the identity overlay, one per activated customer holding a reservation, in customer order. */
  function RfidPairs(customers: seq<Customer>, spots: seq<Spot>): (pairs: seq<string>)
    ensures |pairs| <= |customers|
    ensures forall p :: p in pairs <==>
      exists c :: c in customers && Activated(c) && HasReservation(spots, c.email) && p == PairText(c)
  {
    if customers == [] then []
    else
      var c := customers[0];
      var rest := RfidPairs(customers[1..], spots);
      assert forall d :: d in customers <==> d == c || d in customers[1..];
      if Activated(c) && HasReservation(spots, c.email) then [PairText(c)] + rest else rest
  }

  /** The identity overlay `RFID:<pairs>`; with no pairs, the clearing line `RFID:`. */
  function RfidLine(customers: seq<Customer>, spots: seq<Spot>): (line: string)
    ensures RfidPairs(customers, spots) == [] ==> line == "RFID:\n"
  {
    var pairs := RfidPairs(customers, spots);
    if pairs != [] then "RFID:" + Join(pairs, ',') + "\n" else "RFID:\n"
  }

  /** Without commas in card ids and emails, the device can split the overlay back into its pairs. */
  lemma RfidLineRecoversPairs(customers: seq<Customer>, spots: seq<Spot>)
    requires forall c :: c in customers ==> ',' !in c.rfid && ',' !in c.email
    requires RfidPairs(customers, spots) != []
    ensures var line := RfidLine(customers, spots);
      Split(line[5..|line| - 1], ',') == RfidPairs(customers, spots)
  {
    var pairs := RfidPairs(customers, spots);
    forall i | 0 <= i < |pairs| ensures ',' !in pairs[i] {
      assert pairs[i] in pairs;
      var c :| c in customers && Activated(c) && HasReservation(spots, c.email) && pairs[i] == PairText(c);
      assert ',' !in RemoveSpaces(c.rfid);
    }
    var line := RfidLine(customers, spots);
    assert line[5..|line| - 1] == Join(pairs, ',');
    SplitJoin(pairs, ',');
  }

  /** The first spot reserved by `user` (the source's `next(...)` over the spots). */
  function FirstReservedBy(spots: seq<Spot>, user: string): (r: Option<nat>)
    ensures r.None? <==> forall i :: 0 <= i < |spots| ==> spots[i].reservedBy != Some(user)
    ensures r.Some? ==> (r.value < |spots| && spots[r.value].reservedBy == Some(user)
                         && forall i :: 0 <= i < r.value ==> spots[i].reservedBy != Some(user))
  {
    if spots == [] then None
    else if spots[0].reservedBy == Some(user) then Some(0)
    else match FirstReservedBy(spots[1..], user)
      case None => None
      case Some(k) => Some(k + 1)
  }

  /**
   * The state a spot takes from one token of a `SLOTS:` report: 'X' and 'R'
   * are taken as reported, 'O' only when the spot is not an owned
   * reservation, and any other token leaves the state as it was.
   */
  function MergedState(s: Spot, token: string): char {
    if token == "X" then 'X'
    else if token == "R" then 'R'
    else if token == "O" && (s.state != 'R' || !Owned(s)) then 'O'
    else s.state
  }

  /** An 'O' report never clears a reservation someone owns; other reports are honoured. */
  lemma MergedStateProtectsReservation(s: Spot, token: string)
    ensures s.state == 'R' && Owned(s) ==> MergedState(s, token) == (if token == "X" then 'X' else 'R')
    ensures !(s.state == 'R' && Owned(s)) && token in {"O", "X", "R"} ==> MergedState(s, token) == token[0]
    ensures token !in {"O", "X", "R"} ==> MergedState(s, token) == s.state
  {
  }

  /** A line from the device, as the reader loop tells them apart. */
  datatype Inbound =
    | SlotsReport(tokens: seq<string>)
    | PaidReport(slot: nat)
    | DispReport(card: nat)
    | Ignored

  /** The stripped tokens of a comma-separated payload. */
  function Tokens(payload: string): (tokens: seq<string>)
    ensures |tokens| == |Split(payload, ',')|
    ensures forall i :: 0 <= i < |tokens| ==> tokens[i] == Strip(Split(payload, ',')[i])
  {
    var parts := Split(payload, ',');
    seq(|parts|, i requires 0 <= i < |parts| => Strip(parts[i]))
  }
  /**
   * Comma-free pieces without surrounding whitespace come back unchanged from
   * a report that joins them with commas.
   */
  lemma TokensOfJoin(pieces: seq<string>)
    requires |pieces| >= 1
    requires forall i :: 0 <= i < |pieces| ==> ',' !in pieces[i]
    requires forall i :: 0 <= i < |pieces| ==> pieces[i] != [] && !IsSpace(pieces[i][0]) && !IsSpace(pieces[i][|pieces[i]| - 1])
    ensures Tokens(Join(pieces, ',')) == pieces
  {
    SplitJoin(pieces, ',');
    forall i | 0 <= i < |pieces| ensures Strip(pieces[i]) == pieces[i] {
      StripFramed(pieces[i], "");
      assert pieces[i] + "" == pieces[i];
    }
  }


  /**
   * Decodes one stripped line. `PAID:<n>` and `DISP:<n>` carry a 1-based
   * number that must parse as an integer and lie in 1..4; anything else,
   * `DISP:NONE` and unknown tags are ignored.
   */
  function Decode(line: string): (m: Inbound)
    ensures m.PaidReport? ==> m.slot < SpotCount
    ensures m.DispReport? ==> m.card < Capacity
  {
    if StartsWith(line, "SLOTS:") then SlotsReport(Tokens(line[6..]))
    else if StartsWith(line, "PAID:") then
      match ParseInt(line[5..])
      case Some(n) => if 0 <= n - 1 < SpotCount then PaidReport(n - 1) else Ignored
      case None => Ignored
    else if StartsWith(line, "DISP:") then
      var payload := line[5..];
      if payload == "NONE" then Ignored
      else match ParseInt(payload)
        case Some(n) => if 0 <= n - 1 < Capacity then DispReport(n - 1) else Ignored
        case None => Ignored
    else Ignored
  }

  /** What the snapshot endpoint reports per spot. */
  datatype SpotView = SpotView(id: nat, state: char, reservedByMe: bool, reservedAt: Option<int>, arrivalTs: Option<int>)

  /** A read-only view of every spot for `user`. */
  function Snapshot(spots: seq<Spot>, user: string): (views: seq<SpotView>)
    ensures |views| == |spots|
    ensures forall i :: 0 <= i < |spots| ==>
      views[i].id == i + 1 && views[i].state == spots[i].state
      && (views[i].reservedByMe <==> spots[i].reservedBy == Some(user))
      && views[i].reservedAt == spots[i].reservedAt && views[i].arrivalTs == spots[i].arrivalTs
    ensures (exists i :: 0 <= i < |views| && views[i].reservedByMe) <==> FirstReservedBy(spots, user).Some?
  {
    seq(|spots|, i requires 0 <= i < |spots| =>
      SpotView(i + 1, spots[i].state, spots[i].reservedBy == Some(user), spots[i].reservedAt, spots[i].arrivalTs))
  }
}
