/**
 * The serial link between the device and the service, end to end: what one
 * side writes (with its line terminator) is what the other side reads back
 * after its own framing and stripping. The device ends its lines with
 * `println`'s "\r\n" and the service reads them with `readline().strip()`;
 * the service ends its lines with "\n" and the device reads them with
 * `readStringUntil('\n')` and `trim()`.
 */
module Protocol {
  import opened Text
  import opened QueueSpec
  import opened Registry
  import opened DeviceRules
  import Service

  /** What the service decodes from a line the device wrote with `println`. */
  function ServiceReads(written: string): string {
    Strip(written + "\r\n")
  }

  /** What the device parses from a "\n"-terminated line the service wrote. */
  function DeviceReads(written: string): (cmd: HostCommand)
    requires written != [] && written[|written| - 1] == '\n'
  {
    ParseHostLine(written[..|written| - 1])
  }

  /** A payment report reaches the service as the same 0-based card, which the service then releases. */
  lemma PaidReportRoundTrip(card: nat)
    requires card < SlotCount
    ensures Decode(ServiceReads(PaidLine(card))) == PaidReport(card)
  {
    var digits := NatToString(card + 1);
    var line := PaidLine(card);
    assert IsDigit(digits[|digits| - 1]);
    assert line[|line| - 1] == digits[|digits| - 1];
    StripFramed(line, "\r\n");
    assert line[5..] == digits;
    ParseIntNatToString(card + 1);
  }

  /**
   * An occupancy report reaches the service as its four one-character status
   * tokens, in slot order, for any status characters that are neither
   * whitespace nor a comma (the device only writes O, X and R).
   */
  lemma SlotsReportRoundTrip(st: seq<char>)
    requires |st| == SlotCount
    requires forall i :: 0 <= i < |st| ==> !IsSpace(st[i]) && st[i] != ','
    ensures Decode(ServiceReads(SlotsLine(st))) == SlotsReport([[st[0]], [st[1]], [st[2]], [st[3]]])
  {
    var line := SlotsLine(st);
    StripFramed(line, "\r\n");
    var payload := [st[0], ',', st[1], ',', st[2], ',', st[3]];
    assert line == "SLOTS:" + payload;
    assert Decode(line) == SlotsReport(Tokens(payload));
    SplitFourSingles(st[0], st[1], st[2], st[3], ',');
    StripSingle(st[0]);
    StripSingle(st[1]);
    StripSingle(st[2]);
    StripSingle(st[3]);
  }

  /**
   * The reservation overlay the service sends reaches the device as a
   * `RESV:` command whose payload clears every reservation flag: the
   * service never marks a spot reserved on the device.
   */
  lemma ReservationOverlayClearsFlags(spots: seq<Spot>, flags: seq<bool>)
    requires |spots| == SpotCount && |flags| == SlotCount
    ensures DeviceReads(ResvLine(spots)) == Reserve("O,O,O,O")
    ensures ResvApplied(flags, Split("O,O,O,O", ',')) == [false, false, false, false]
  {
    ResvLineConstant(spots);
    var body := "RESV:O,O,O,O";
    assert ResvLine(spots)[..|ResvLine(spots)| - 1] == body;
    StripFramed(body, "");
    assert Strip(body) == body by { assert body + "" == body; }
    assert body[..5] == "RESV:" && body[5..] == "O,O,O,O";
    AllOpenPayload(flags);
  }

  /** The all-open payload marks no slot reserved. */
  lemma AllOpenPayload(flags: seq<bool>)
    requires |flags| == SlotCount
    ensures ResvApplied(flags, Split("O,O,O,O", ',')) == [false, false, false, false]
  {
    SplitFourSingles('O', 'O', 'O', 'O', ',');
    StripSingle('O');
  }

  /** `START:` followed by decimal digits is a start command for their value, held in 16 bits. */
  lemma ParseStartLine(digits: string)
    requires digits != [] && AllDigits(digits)
    ensures ParseHostLine("START:" + digits) == StartTimer(Int16(DigitsValue(digits)))
  {
    var body := "START:" + digits;
    assert IsDigit(digits[|digits| - 1]) && body[|body| - 1] == digits[|digits| - 1];
    StripFramed(body, "");
    assert body + "" == body;
    assert body[..6] == "START:" && body[6..] == digits;
    ToIntOfDigits(digits);
  }

  /**
   * A timer directive reaches the device as a start command for the id as
   * the board's 16-bit `int` holds it: the same id up to 32767.
   */
  lemma StartCommandRoundTrip(id: nat)
    ensures DeviceReads(Service.StartLine(id)) == StartTimer(Int16(id))
    ensures id < 0x8000 ==> DeviceReads(Service.StartLine(id)) == StartTimer(id)
  {
    var line := Service.StartLine(id);
    var digits := NatToString(id);
    assert line[..|line| - 1] == "START:" + digits;
    ParseStartLine(digits);
    NatToStringValue(id);
    assert DeviceReads(line) == StartTimer(Int16(id));
    if id < 0x8000 {
      Int16Small(id);
    }
  }

  /**
   * An id past the 16-bit range wraps onto a card: `START:65537` up to
   * `START:65540` start the timers of cards 1 to 4.
   */
  lemma StartIdWraps(card: nat)
    requires 1 <= card <= SlotCount
    ensures DeviceReads(Service.StartLine(card + 0x1_0000)) == StartTimer(card)
  {
    var id := card + 0x1_0000;
    assert Int16(id) == card by { Int16WrapsCard(card); }
    StartCommandRoundTrip(id);
  }

  /** A line whose stripped text starts with a tag other than `RESV:` or `START:` is ignored by the device. */
  lemma ForeignTagIgnored(text: string, tag: string)
    requires StartsWith(text, tag) && tag != [] && !IsSpace(tag[0]) && !IsSpace(tag[|tag| - 1])
    requires |tag| >= 2 && !(tag[0] == 'R' && tag[1] == 'E') && !(tag[0] == 'S' && tag[1] == 'T')
    ensures ParseHostLine(text) == Unrecognised
  {
    StripKeepsPrefix(text, tag);
    assert Strip(text)[0] == tag[0] && Strip(text)[1] == tag[1];
  }

  /** The capacity-hold directive reaches the device but is not acted on. */
  lemma CapacityHoldIgnored(n: nat)
    requires n <= SpotCount
    ensures DeviceReads(CapLine(n)) == Unrecognised
  {
    var line := CapLine(n);
    assert line[..|line| - 1][..4] == "CAP:";
    ForeignTagIgnored(line[..|line| - 1], "CAP:");
  }

  /** The arrival directive reaches the device but is not acted on. */
  lemma ArrivalIgnored(id: nat)
    ensures DeviceReads(Service.HereLine(id)) == Unrecognised
  {
    var line := Service.HereLine(id);
    assert line[..|line| - 1][..5] == "HERE:";
    ForeignTagIgnored(line[..|line| - 1], "HERE:");
  }

  /** The identity overlay reaches the device but is not acted on. */
  lemma IdentityOverlayIgnored(customers: seq<Customer>, spots: seq<Spot>)
    ensures DeviceReads(RfidLine(customers, spots)) == Unrecognised
  {
    var line := RfidLine(customers, spots);
    var pairs := RfidPairs(customers, spots);
    var body := if pairs != [] then "RFID:" + Join(pairs, ',') else "RFID:";
    assert line == body + "\n";
    assert line[..|line| - 1] == body;
    assert StartsWith(body, "RFID:");
    ForeignTagIgnored(body, "RFID:");
  }
}
