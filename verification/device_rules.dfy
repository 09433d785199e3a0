/**
 * The device's pure rules: the registered card identifiers, the slot status
 * it shows, the lines it writes to the host, elapsed time over a wrapping
 * millisecond clock, and the parking fee.
 */
module DeviceRules {
  import opened Text

  const SlotCount: nat := 4
  /** A distance reading below this many centimetres means a car is in the slot. */
  const OccupiedBelowCm: int := 15
  /** The value of one coin; the fee is one unit per second, charged in whole coins. */
  const CoinValue: nat := 5
  /** `millis()` is a 32-bit unsigned counter. */
  const MillisWrap: nat := 0x1_0000_0000

  /** The first four UID bytes of the registered cards; card `i` is row `i`. */
  const ValidCards: seq<seq<bv8>> := [
    [0x35, 0xE1, 0x7A, 0xD3],
    [0x65, 0x07, 0xD5, 0xD3],
    [0x55, 0xC9, 0x5C, 0xD3],
    [0x35, 0x33, 0x3F, 0xD3]
  ]

  /** The first registered card, from row `from` on, whose four bytes equal `prefix`; -1 if none. */
  function CardFrom(prefix: seq<bv8>, from: nat): (idx: int)
    requires from <= |ValidCards|
    ensures idx == -1 || from <= idx < |ValidCards|
    ensures idx == -1 <==> forall k :: from <= k < |ValidCards| ==> ValidCards[k] != prefix
    ensures idx != -1 ==> ValidCards[idx] == prefix && forall k :: from <= k < idx ==> ValidCards[k] != prefix
    decreases |ValidCards| - from
  {
    if from == |ValidCards| then -1
    else if ValidCards[from] == prefix then from
    else CardFrom(prefix, from + 1)
  }

  /** The card a UID belongs to (only its first four bytes are compared), or -1. */
  function CardOf(uid: seq<bv8>): (idx: int)
    requires |uid| >= 4
    ensures -1 <= idx < SlotCount
    ensures idx == -1 <==> forall k :: 0 <= k < SlotCount ==> ValidCards[k] != uid[..4]
    ensures idx != -1 ==> ValidCards[idx] == uid[..4] && forall k :: 0 <= k < idx ==> ValidCards[k] != uid[..4]
  {
    CardFrom(uid[..4], 0)
  }

  /** The registered identifiers differ, so each registered card is recognised as itself. */
  lemma CardOfRegistered(i: nat, rest: seq<bv8>)
    requires i < SlotCount
    ensures CardOf(ValidCards[i] + rest) == i
  {
    var uid := ValidCards[i] + rest;
    assert uid[..4] == ValidCards[i];
  }

  /** The status shown for one slot: 'X' when occupied, else 'R' while a session or reservation is on, else 'O'. */
  function StatusCode(occupied: bool, session: bool): (c: char)
    ensures c == 'X' <==> occupied
    ensures c == 'R' <==> !occupied && session
    ensures c == 'O' <==> !occupied && !session
  {
    if occupied then 'X' else if session then 'R' else 'O'
  }

  /** A free slot shows 'R' while its card is in a session or awaiting payment, or while the host reserves it. */
  predicate ShowsReserved(counting: bool, awaiting: bool, reserved: bool) {
    counting || awaiting || reserved
  }

  /** The occupancy report `SLOTS:a,b,c,d` (the line terminator is left out). */
  function SlotsLine(st: seq<char>): (line: string)
    requires |st| == SlotCount
    ensures |line| == 13 && StartsWith(line, "SLOTS:")
    ensures forall i :: 0 <= i < SlotCount ==> line[6 + 2 * i] == st[i]
    ensures forall i :: 1 <= i < SlotCount ==> line[5 + 2 * i] == ','
  {
    "SLOTS:" + [st[0]] + "," + [st[1]] + "," + [st[2]] + "," + [st[3]]
  }

  /** The payment-complete report `PAID:<card + 1>`. */
  function PaidLine(card: nat): (line: string)
    ensures StartsWith(line, "PAID:") && AllDigits(line[5..]) && DigitsValue(line[5..]) == card + 1
  {
    NatToStringValue(card + 1);
    var line := "PAID:" + NatToString(card + 1);
    assert line[5..] == NatToString(card + 1);
    line
  }

  /** Whole seconds between two `millis()` readings, across a counter rollover. */
  function Elapsed(nowMs: int, startMs: int): (seconds: nat)
    requires 0 <= nowMs < MillisWrap && 0 <= startMs < MillisWrap
    ensures startMs <= nowMs ==> seconds == (nowMs - startMs) / 1000
    ensures nowMs < startMs ==> seconds == (nowMs + MillisWrap - startMs) / 1000
  {
    var diff := (nowMs - startMs) % MillisWrap;
    assert diff == if startMs <= nowMs then nowMs - startMs else nowMs + MillisWrap - startMs;
    diff / 1000
  }

  /** The fee for a stay of `seconds`: rounded up to a whole number of coins. */
  function PaymentDue(seconds: nat): (due: nat)
    ensures due % CoinValue == 0
    ensures seconds <= due < seconds + CoinValue
  {
    ((seconds + 4) / CoinValue) * CoinValue
  }

  /** C's `/` on int: the quotient truncated toward zero. */
  function TruncDiv(a: int, b: nat): (q: int)
    requires b > 0
    ensures a >= 0 ==> 0 <= a - q * b < b
    ensures a < 0 ==> -(b as int) < a - q * b <= 0
  {
    if a >= 0 then a / b else -((-a) / b)
  }

  /** Whether the coins inserted settle `due`: at least `due / 5` coins. */
  function PaidInFull(due: int, coins: int): (paid: bool)
    ensures due >= 0 ==> (paid <==> coins * CoinValue >= due - due % CoinValue)
    ensures due < 0 && coins >= 0 ==> paid
  {
    coins >= TruncDiv(due, CoinValue)
  }

  /** The exit opens exactly when the coins cover every second of the stay. */
  lemma PaidInFullCoversStay(seconds: nat, coins: int)
    ensures PaidInFull(PaymentDue(seconds), coins) <==> coins * CoinValue >= seconds
  {
    var due := PaymentDue(seconds);
    assert due == (due / CoinValue) * CoinValue;
  }

  /** The amount the payment display asks for: what the missing coins are worth, never negative. */
  function Remaining(due: int, coins: int): (amount: int)
    ensures amount >= 0 && amount % CoinValue == 0
    ensures amount == 0 <==> PaidInFull(due, coins)
  {
    var left := (TruncDiv(due, CoinValue) - coins) * CoinValue;
    if left < 0 then 0 else left
  }

  /** C's conversion of a value to a 16-bit `int`: reduction modulo 2^16 into -32768..32767. */
  function Int16(x: int): (r: int)
    ensures -0x8000 <= r < 0x8000
    ensures (r - x) % 0x1_0000 == 0
  {
    (x + 0x8000) % 0x1_0000 - 0x8000
  }

  /** A value already in the 16-bit range is stored as itself. */
  lemma Int16Small(x: int)
    requires -0x8000 <= x < 0x8000
    ensures Int16(x) == x
  {
    assert (x + 0x8000) % 0x1_0000 == x + 0x8000;
  }

  /** A card number past 65535 wraps back onto the card number. */
  lemma Int16WrapsCard(card: nat)
    requires 1 <= card <= SlotCount
    ensures Int16(card + 0x1_0000) == card
  {
    if card == 1 {
      assert Int16(0x1_0001) == 1;
    } else if card == 2 {
      assert Int16(0x1_0002) == 2;
    } else if card == 3 {
      assert Int16(0x1_0003) == 3;
    } else {
      assert Int16(0x1_0004) == 4;
    }
  }

  /** The fee as stored in the sketch's 16-bit `int paymentDue[]`. */
  function PaymentDueAsWritten(seconds: nat): (stored: int)
    ensures -0x8000 <= stored < 0x8000
    ensures (stored - PaymentDue(seconds)) % 0x1_0000 == 0
    ensures seconds <= 32765 ==> stored == PaymentDue(seconds)
  {
    Int16(PaymentDue(seconds))
  }

  /** The stored fee wraps negative for stays of 32766 s and more, and 0 coins then settle it. */
  lemma PaymentDueWrapsNegative()
    ensures PaymentDueAsWritten(32766) == -32766
    ensures PaidInFull(PaymentDueAsWritten(32766), 0)
    ensures !PaidInFull(PaymentDue(32766), 0)
  {
  }

  /** Every stay from 32766 s to 65535 s leaves the exit for free as written. */
  lemma {:induction false} FreeExitAsWritten(seconds: nat)
    requires 32766 <= seconds <= 65535
    ensures PaymentDueAsWritten(seconds) < 0
    ensures PaidInFull(PaymentDueAsWritten(seconds), 0)
    ensures !PaidInFull(PaymentDue(seconds), 0)
  {
    var due: int := PaymentDue(seconds);
    assert 0x8000 <= due < 0x1_0000;
    assert Int16(due) == due - 0x1_0000;
  }

  /** The first index whose flag is set, or -1. */
  function FirstSet(flags: seq<bool>): (i: int)
    ensures -1 <= i < |flags|
    ensures i == -1 <==> forall k :: 0 <= k < |flags| ==> !flags[k]
    ensures i != -1 ==> flags[i] && forall k :: 0 <= k < i ==> !flags[k]
  {
    if flags == [] then -1
    else if flags[0] then 0
    else
      var k := FirstSet(flags[1..]);
      if k == -1 then -1 else k + 1
  }

  /** A line from the host as the device reads it. */
  datatype HostCommand =
    | Reserve(payload: string)
    | StartTimer(oneBased: int)
    | Unrecognised

  /**
   * The device's reading of one host line: trimmed, then `RESV:` followed by
   * the reservation payload, or `START:` followed by a 1-based card number
   * (`String::toInt` of the trimmed rest, stored in a 16-bit `int`); anything
   * else is not acted on.
   */
  function ParseHostLine(raw: string): (cmd: HostCommand)
    ensures cmd.Reserve? <==> StartsWith(Strip(raw), "RESV:")
    ensures cmd.Reserve? ==> "RESV:" + cmd.payload == Strip(raw)
    ensures cmd.StartTimer? <==> !StartsWith(Strip(raw), "RESV:") && StartsWith(Strip(raw), "START:")
    ensures cmd.StartTimer? ==> -0x8000 <= cmd.oneBased < 0x8000
  {
    var line := Strip(raw);
    if StartsWith(line, "RESV:") then Reserve(line[5..])
    else if StartsWith(line, "START:") then StartTimer(Int16(ToInt(Strip(line[6..]))))
    else Unrecognised
  }

  /**
   * The reservation flags after a `RESV:` payload split at commas: flag `i`
   * becomes whether token `i` is reserved, for as many tokens as there are
   * (at most four); the remaining flags keep their values.
   */
  function ResvApplied(flags: seq<bool>, parts: seq<string>): (r: seq<bool>)
    ensures |r| == |flags|
    ensures forall i :: 0 <= i < |flags| ==> r[i] == if i < |parts| then ReservedToken(parts[i]) else flags[i]
  {
    seq(|flags|, i requires 0 <= i < |flags| => if i < |parts| then ReservedToken(parts[i]) else flags[i])
  }

  /** Whether a `RESV:` token marks its slot reserved: "R" once trimmed. */
  predicate ReservedToken(token: string) {
    Strip(token) == "R"
  }

  /** The text of a payload up to its first comma, or all of it when there is none. */
  function FirstToken(rest: string): (token: string)
    ensures IndexOf(rest, ',') == -1 ==> token == rest
    ensures IndexOf(rest, ',') != -1 ==> token == rest[..IndexOf(rest, ',')]
  {
    var comma := IndexOf(rest, ',');
    if comma == -1 then rest else rest[..comma]
  }

  /** The first token is the longest comma-free prefix: it is followed by a comma or by nothing. */
  lemma FirstTokenSpec(rest: string)
    ensures ',' !in FirstToken(rest) && StartsWith(rest, FirstToken(rest))
    ensures |FirstToken(rest)| < |rest| ==> rest[|FirstToken(rest)|] == ','
  {
    IndexOfSpec(rest, ',');
  }

  /**
   * The sketch's walk over a `RESV:` payload from flag `i` on: set the flag
   * from the text up to the next comma, and stop after the last token or
   * the last flag.
   */
  function ResvWalk(flags: seq<bool>, rest: string, i: nat): (r: seq<bool>)
    requires i <= |flags|
    ensures |r| == |flags|
    decreases |flags| - i
  {
    if i == |flags| then flags
    else
      var next := flags[i := ReservedToken(FirstToken(rest))];
      var comma := IndexOf(rest, ',');
      if comma == -1 then next else ResvWalk(next, rest[comma + 1..], i + 1)
  }

  /**
   * What a `RESV:` payload does to the overlay: the same payload twice has
   * the effect of once, and a payload with a token for every flag sets all
   * of them whatever they were before.
   */
  lemma ResvOverlayLaws(flags: seq<bool>, other: seq<bool>, parts: seq<string>)
    requires |other| == |flags|
    ensures ResvApplied(ResvApplied(flags, parts), parts) == ResvApplied(flags, parts)
    ensures |parts| >= |flags| ==> ResvApplied(flags, parts) == ResvApplied(other, parts)
  {
  }

  /** The walk taken one token at a time. */
  lemma ResvWalkStep(flags: seq<bool>, rest: string, i: nat)
    requires i < |flags|
    ensures IndexOf(rest, ',') == -1 ==>
      ResvWalk(flags, rest, i) == flags[i := ReservedToken(FirstToken(rest))]
    ensures IndexOf(rest, ',') != -1 ==>
      ResvWalk(flags, rest, i) == ResvWalk(flags[i := ReservedToken(FirstToken(rest))], rest[IndexOf(rest, ',') + 1..], i + 1)
  {
  }

  /** One step of the walk: the text before the first comma is the next part of the split. */
  lemma NextToken(rest: string, parts: seq<string>, i: nat)
    requires i < |parts| && Split(rest, ',') == parts[i..]
    ensures FirstToken(rest) == parts[i]
    ensures IndexOf(rest, ',') == -1 ==> |parts| == i + 1
    ensures IndexOf(rest, ',') >= 0 ==>
      && i + 1 < |parts|
      && Split(rest[IndexOf(rest, ',') + 1..], ',') == parts[i + 1..]
  {
    SplitAtIndexOf(rest, ',');
    var k := IndexOf(rest, ',');
    if k >= 0 {
      assert parts[i..] == [parts[i]] + parts[i + 1..];
    }
  }

  /** The flags the walk should leave from flag `i` on: earlier flags kept, later ones from their part. */
  function WalkTarget(flags: seq<bool>, parts: seq<string>, i: nat): (r: seq<bool>)
    requires i <= |flags|
    ensures |r| == |flags|
  {
    seq(|flags|, k requires 0 <= k < |flags| => if k < i || k >= |parts| then flags[k] else ReservedToken(parts[k]))
  }

  /** Setting flag `i` from its part moves the target's boundary one flag on. */
  lemma WalkTargetStep(flags: seq<bool>, parts: seq<string>, i: nat)
    requires i < |flags| && i < |parts|
    ensures WalkTarget(flags[i := ReservedToken(parts[i])], parts, i + 1) == WalkTarget(flags, parts, i)
  {
    var a := WalkTarget(flags[i := ReservedToken(parts[i])], parts, i + 1);
    var b := WalkTarget(flags, parts, i);
    forall k | 0 <= k < |flags| ensures a[k] == b[k] {
    }
  }

  /** When the last part is part `i`, setting flag `i` already reaches the target. */
  lemma WalkTargetLast(flags: seq<bool>, parts: seq<string>, i: nat)
    requires i < |flags| && |parts| == i + 1
    ensures flags[i := ReservedToken(parts[i])] == WalkTarget(flags, parts, i)
  {
    var a := flags[i := ReservedToken(parts[i])];
    var b := WalkTarget(flags, parts, i);
    forall k | 0 <= k < |flags| ensures a[k] == b[k] {
    }
  }

  /**
   * Walking the rest of a payload whose split is `parts[i..]` sets flag `k`
   * (from `i` on) from part `k` when there is one and keeps it otherwise,
   * and leaves the flags before `i` alone.
   */
  lemma {:induction false} ResvWalkFrom(flags: seq<bool>, rest: string, i: nat, parts: seq<string>)
    requires i <= |flags| && i < |parts| && Split(rest, ',') == parts[i..]
    ensures ResvWalk(flags, rest, i) == WalkTarget(flags, parts, i)
    decreases |flags| - i
  {
    if i == |flags| {
      assert WalkTarget(flags, parts, i) == flags;
    } else {
      NextToken(rest, parts, i);
      ResvWalkStep(flags, rest, i);
      var next := flags[i := ReservedToken(parts[i])];
      if IndexOf(rest, ',') == -1 {
        WalkTargetLast(flags, parts, i);
      } else {
        ResvWalkFrom(next, rest[IndexOf(rest, ',') + 1..], i + 1, parts);
        WalkTargetStep(flags, parts, i);
      }
    }
  }

  /** The walk applies the split payload: it agrees with `ResvApplied` on every input. */
  lemma ResvWalkApplies(flags: seq<bool>, payload: string)
    ensures ResvWalk(flags, payload, 0) == ResvApplied(flags, Split(payload, ','))
  {
    var parts := Split(payload, ',');
    assert parts[0..] == parts;
    ResvWalkFrom(flags, payload, 0, parts);
    assert WalkTarget(flags, parts, 0) == ResvApplied(flags, parts);
  }
}
