# MallPark parking coordination, modelled in Dafny

MallPark runs a four-spot car park with two cooperating programs that talk
over a serial line:

- the **service** (`app.py`, Python/Flask) holds the spot records, takes
  reservations and arrival notices from users, estimates how many spots to
  hold for imminent arrivals, and reconciles its state with the lines the
  device reports;
- the **device** (`test_arduino.py`, an Arduino sketch) senses occupancy,
  dispenses one of four RFID cards at the entry button, times each card's
  stay, takes coins at the exit and reports back.

Both sides keep a copy of the same four-card circular dispense queue. This
project models the coordination logic of both sides:

- `queue_spec.dfy` — the queue as a value (front, rest, push-back,
  remove-if-present) and its laws;
- `server_queue.dfy`, `device_queue.dfy` — the service's and the device's
  circular buffers as classes over a four-cell array, each method proved
  against the value-level queue; `queue_agreement.dfy` shows the two copies
  stay equal under the same operations;
- `registry.dfy` — the service's spot records, the capacity-hold count,
  the lines it composes (`CAP:`, `RESV:`, `RFID:`) and the decoding of the
  device's lines (`SLOTS:`, `PAID:`, `DISP:`);
- `service.dfy` — the service's shared state as a class: the request
  handlers (reserve, cancel, arrival), the hold estimator with its stale-field
  sweep and deduplicated send, and the handler for inbound device lines;
- `device_rules.dfy` — the device's pure rules: card matching, slot status,
  fee, the 16-bit fee overflow, and the parsing of host lines (whose `START:` id is a 16-bit `int`);
- `card_states.dfy` — where each card is (queue, timed session, awaiting
  payment) and how every device step keeps each card in exactly one place;
- `controller.dfy` — the sketch's global arrays as a class with one method
  per step of its main loop and the coin interrupt;
- `protocol.dfy` — the two ends of the serial link composed: what one side
  writes is what the other side decodes;
- `text.dfy` — the string operations both sides rely on (strip/trim, split,
  join, indexOf, integer parsing and printing);
- `scenarios.dfy` — whole runs from power-on.

Outside inputs are parameters: the clock (`now` in whole seconds on the
service, `millis()` as `nowMs` on the device), the ultrasonic distances, the
button, the scanned card UID and the host's pending lines. Whether the serial
port is open is a flag `linkUp`; every line written is appended to a
sequence (`sent` on the service, `out` on the device).

Things the two sides do that the proofs make explicit:

- The device never writes a `DISP:` line, although the service handles one,
  so a card dispensed at the entry button stays in the service's queue copy.
- The service never sends `START:` (its `start_timer_on_arduino` has no
  caller), so the device's `START:` handling is only reachable from another
  host; the line it would send is read correctly
  (`Protocol.StartCommandRoundTrip`).
- The `RESV:` overlay the service sends is always `RESV:O,O,O,O`
  (`Registry.ResvLineConstant`), so it clears every reservation flag on the
  device (`Protocol.ReservationOverlayClearsFlags`).
- The device reads `CAP:`, `HERE:` and `RFID:` lines and does nothing with them
  (`Protocol.CapacityHoldIgnored`, `Protocol.ArrivalIgnored`,
  `Protocol.IdentityOverlayIgnored`).

## Model

| member | source | states |
|---|---|---|
| QueueSpec.PopAfterPush | app.py:93-111 | on a non-empty, non-full queue, pop after push-back returns the same front and leaves the pushed card at the end (FIFO) |
| QueueSpec.PushThenPop | app.py:93-111 | a card pushed onto an empty queue is the next one popped, leaving it empty |
| QueueSpec.WithoutConcat | app.py:119-124 | removal distributes over concatenation, so survivors keep their relative order |
| QueueSpec.WithoutStep | app.py:120-124 | one more scanned element is kept exactly when it is not the removed card |
| QueueSpec.WithoutCounts | app.py:114-129 | remove-if-present drops every occurrence of the card and keeps every other card with its multiplicity |
| QueueSpec.WithoutAbsent | app.py:114-129 | removing an absent card leaves the queue unchanged |
| QueueSpec.WithoutIdempotent | app.py:114-129 | applying remove-if-present twice equals applying it once |
| QueueSpec.WithoutShrinks | app.py:114-129 | removal never grows the queue, and shrinks it when the card was present |
| QueueSpec.DistinctBound | test_arduino.py:83-88 | distinct card indices below n number at most n |
| QueueSpec.MultisetOfDistinct | test_arduino.py:83-88 | a queue without duplicates holds each card at most once |
| QueueSpec.RoomForMissingCard | test_arduino.py:84 | when a card is missing from a duplicate-free queue of card indices, the queue is not full, so the "should not happen" full case indeed cannot happen for a returned card |
| QueueSpec.WithoutNoDup | test_arduino.py:90-107 | removal keeps a queue free of duplicates |
| QueueSpec.WithoutInRange | test_arduino.py:90-107 | removal keeps every entry a card index 0..3 |
| QueueSpec.PushedBackNoDup | test_arduino.py:83-88 | push-back keeps the queue duplicate-free exactly when the queue is full or the card is absent |
| QueueSpec.RestKeeps | test_arduino.py:75-81 | pop keeps the queue duplicate-free and in range, and a non-empty queue's front is a card index |
| QueueSpec.RestMembers | test_arduino.py:75-81 | with distinct cards, pop removes exactly the front card |
| ServerQueue.CardQueue.constructor | app.py:49-51 | the queue starts as cards 0,1,2,3 with head 0 |
| ServerQueue.CardQueue.Pop | app.py:93-101 | returns the front card and the queue loses it, head advancing mod 4; an empty queue returns -1 and nothing changes |
| ServerQueue.CardQueue.PushReturned | app.py:104-111 | the card joins the end of the queue; a full queue (size 4 or more) is left untouched |
| ServerQueue.CardQueue.RemoveIfPresent | app.py:114-129 | the queue becomes the order-preserving removal of the card and head resets to 0; an empty queue returns at once |
| DeviceQueue.CardQueue.constructor | test_arduino.py:71-73 | the queue starts as cards 0,1,2,3 with head 0 |
| DeviceQueue.CardQueue.Pop | test_arduino.py:75-81 | as the service's pop: front card, head advanced mod 4, -1 and no change when empty |
| DeviceQueue.CardQueue.PushReturned | test_arduino.py:83-88 | as the service's push-back: appended at the tail, no-op when full |
| DeviceQueue.CardQueue.RemoveIfPresent | test_arduino.py:90-107 | as the service's removal, through the scratch array: order-preserving removal, head reset to 0 |
| QueueAgreement.Lockstep | test_arduino.py:75-107 | the service's and the device's queues, equal before, are equal after the same pop, push-back or removal, and the two pops return the same card |
| Registry.HoldCount | app.py:226-240 | the hold count never exceeds the number of spots |
| Registry.HoldCountAppend | app.py:227-240 | the count over consecutive spot lists adds up |
| Registry.HoldCountZero | app.py:227-240 | the count is zero exactly when no spot is reserved, not arrived and due within ten minutes |
| Registry.HoldCountUpdate | app.py:227-240 | changing one spot changes the count by that spot's contribution only |
| Registry.HoldCountMonotone | app.py:239 | arrivals already past still hold, so the count never falls as time advances |
| Registry.Clamp | app.py:714 | the sent value is max(0, min(4, n)): within 0..4 and equal to n when n already is |
| Registry.CapLine | app.py:718 | `CAP:`, one digit whose value is the count, and a newline |
| Registry.CapLineInjective | app.py:718-719 | two CAP lines are equal exactly when their clamped counts are, so the dedup cache compares counts |
| Registry.Swept | app.py:242-248 | sweeping an unreserved spot clears a truthy arrival time, assigned slot and arrived flag and keeps every other field |
| Registry.ResvLineConstant | app.py:697-700 | the reservation overlay for four spots is always `RESV:O,O,O,O` followed by a newline |
| Registry.RfidPairs | app.py:731-740 | a pair is in the overlay exactly when some customer with a card id and a password holds a reservation and the pair is that customer's space-free id and email |
| Registry.RfidLine | app.py:742-751 | with no pairs, the overlay is the clearing line `RFID:` |
| Registry.RfidLineRecoversPairs | app.py:742-744 | when ids and emails hold no comma, splitting the overlay's payload at commas gives back the pairs |
| Registry.FirstReservedBy | app.py:656 | the first spot whose owner is the user, or none when no spot is theirs |
| Registry.MergedStateProtectsReservation | app.py:174-183 | an `O` report never clears an owned `R` spot; `X` and `R` are always taken; other tokens change nothing |
| Registry.TokensOfJoin | app.py:171-172 | a payload of non-empty, comma-free pieces without edge whitespace, joined by commas, tokenises back into exactly those pieces |
| Registry.Decode | app.py:170-216 | a decoded `PAID:` report names a spot 0..3 and a decoded `DISP:` report names a card 0..3 |
| Registry.Snapshot | app.py:631-643 | one view per spot with id i+1, the spot's state and times; some view is marked the user's exactly when the reserve handler (app.py:656) would find a spot the user already holds |
| Service.Dedup | app.py:702-705 | a line is sent and cached exactly when the link is up and it differs from the cached line; otherwise nothing changes |
| Service.DedupIdempotent | app.py:719-722 | pushing the same line twice sends it at most once |
| Service.SweptAll | app.py:227-248 | every spot keeps its state, owner and reservation time; afterwards no unowned spot carries an arrival time, an assigned slot or an arrived flag |
| Service.SweptAllIdempotent | app.py:227-248 | sweeping twice is the same as sweeping once, so re-running the estimator finds nothing stale |
| Service.SweptAllHoldCount | app.py:227-248 | the sweep does not change the hold count |
| Service.Released | app.py:189-196 | a released spot has no owner and holds capacity at no time, the stale-field sweep leaves it as it is, and its state is `O` unless it was `X` |
| Service.ApplySlots | app.py:173-183 | a report changes only the spots' states, and a spot whose state changes lies within the tokens and takes exactly its token |
| Service.ApplySlotsKeepsReservations | app.py:180-183 | after a `SLOTS:` report every owned `R` spot is still `R` or `X` and keeps its owner |
| Service.ReservedSpot | app.py:666-670 | the reserved spot belongs to the user with slot card+1, and holds capacity at time t exactly when the user is non-empty and the arrival is unset or at most ten minutes after t |
| Service.ArrivalTarget | app.py:840-846 | with an id, the spot with that id when 1..4; without one, the user's first reserved spot |
| Service.StartLine | app.py:758 | `START:`, decimal digits whose value is the spot id, and a newline |
| Service.HereLine | app.py:860 | `HERE:`, decimal digits whose value is the spot id, and a newline |
| Service.Service.constructor | app.py:40-56 | four open, unreserved spots, queue 0,1,2,3, empty caches, nothing sent |
| Service.Service.Send | app.py:58-76 | a send succeeds exactly when the link is up, and then appends the line |
| Service.Service.PushCapacityHold | app.py:708-722 | the sent lines and the cache are what the dedup of the clamped `CAP:` line gives |
| Service.Service.PushReservations | app.py:690-705 | the sent lines and the cache are what the dedup of the `RESV:` overlay gives |
| Service.Service.PushRfidData | app.py:724-751 | the identity overlay is sent, uncached, whenever the link is up |
| Service.Service.EnforceHolds | app.py:222-253 | the spots become the sweep of the old spots, and the clamped hold count of the old spots is pushed through the dedup cache |
| Service.Service.HandleLine | app.py:169-218 | per decoded line: `SLOTS:` merges the tokens; `PAID:n` releases spot n-1, pushes card n-1 back, re-sends the overlay and re-runs the estimator; `DISP:n` removes card n-1 from the queue; anything else changes nothing |
| Service.Service.Reserve | app.py:648-680 | a user who already holds a spot succeeds with no change; an empty queue fails with nothing changed; otherwise the front card is popped, its spot reserved for the user, and the overlays sent |
| Service.Service.Cancel | app.py:683-687 | cancellation is always refused |
| Service.Service.ImHere | app.py:832-867 | refused when no such spot exists, when the user does not own it, or when the device is not connected; otherwise the spot is marked arrived now, `HERE:<id>` is sent, and the hold count drops by that spot's contribution |
| DeviceRules.CardFrom | test_arduino.py:294-306 | the first registered card from a row on whose four bytes equal the prefix, or -1 when none does |
| DeviceRules.CardOf | test_arduino.py:294-306 | the smallest card whose stored bytes equal the UID's first four bytes, or -1 |
| DeviceRules.CardOfRegistered | test_arduino.py:47-52 | every registered card is recognised as itself |
| DeviceRules.StatusCode | test_arduino.py:325-328 | a slot shows `X` exactly when occupied, `R` exactly when free with a session or reservation, and `O` otherwise |
| DeviceRules.Elapsed | test_arduino.py:390 | whole seconds since the session began, across a `millis()` rollover |
| DeviceRules.PaymentDue | test_arduino.py:393 | the fee is a multiple of 5 with t at most fee below t+5 |
| DeviceRules.TruncDiv | test_arduino.py:425 | C's integer division: the remainder has the sign of the dividend and is smaller than the divisor |
| DeviceRules.PaidInFull | test_arduino.py:425-439 | with a non-negative stored fee the exit opens exactly when the coins are worth the fee rounded down to a multiple of 5; a negative stored fee opens it with any coins |
| DeviceRules.PaidInFullCoversStay | test_arduino.py:425-439 | the exit opens exactly when the coins' worth covers every second of the stay |
| DeviceRules.Remaining | test_arduino.py:425-427 | the displayed amount is never negative, is a multiple of 5, and is zero exactly when the payment is complete |
| DeviceRules.Int16 | test_arduino.py:60 | conversion to a 16-bit int stays in range and agrees with the value modulo 2^16 |
| DeviceRules.PaymentDueAsWritten | test_arduino.py:393 | the stored fee fits the 16-bit `int` of test_arduino.py:60, agrees with the true fee modulo 2^16, and equals it for stays up to 32765 s |
| DeviceRules.Int16WrapsCard | test_arduino.py:181 | a card number 1..4 plus 65536 is the card number again once kept in a 16-bit `int` |
| DeviceRules.PaymentDueWrapsNegative | test_arduino.py:60 | as written, a stay of 32766 s stores a fee of -32766, which zero coins settle |
| DeviceRules.FreeExitAsWritten | test_arduino.py:60 | as written, every stay from 32766 s to 65535 s stores a negative fee and leaves for free, though the true fee is owed |
| DeviceRules.SlotsLine | test_arduino.py:333-340 | `SLOTS:` then the four statuses in slot order separated by commas, 13 characters in all |
| DeviceRules.PaidLine | test_arduino.py:468-469 | `PAID:` followed by decimal digits whose value is card+1 |
| DeviceRules.FirstSet | test_arduino.py:472-484 | the lowest index whose flag is set, or -1 when none is |
| DeviceRules.ParseHostLine | test_arduino.py:159-181 | a trimmed line starting `RESV:` is a reservation payload (the rest of the line), otherwise one starting `START:` is a start command whose id is a 16-bit `int`, otherwise it is not acted on |
| DeviceRules.ResvOverlayLaws | test_arduino.py:161-176 | applying the same overlay twice equals applying it once, and an overlay with a token for every flag overwrites all flags whatever they were |
| DeviceRules.FirstTokenSpec | test_arduino.py:165-171 | the token holds no comma, is a prefix of the rest, and when shorter it stops at a comma |
| DeviceRules.ResvWalk | test_arduino.py:164-176 | the walk over the payload never changes the number of flags |
| DeviceRules.ResvWalkStep | test_arduino.py:164-176 | one step of the walk sets the current flag, then stops or continues after the comma |
| DeviceRules.NextToken | test_arduino.py:165-175 | the text before the first comma is the next piece of the split, and the rest after it splits into the remaining pieces |
| DeviceRules.ResvWalkFrom | test_arduino.py:164-176 | the walk from flag i on sets each later flag from its piece of the split and keeps earlier ones |
| DeviceRules.ResvWalkApplies | test_arduino.py:161-176 | the sketch's token walk agrees with applying the comma split of the payload, on every payload |
| CardStates.InitialAccounted | test_arduino.py:58-73 | at power-on every card is queued and none is in a session or owes payment |
| CardStates.DispenseAccounted | test_arduino.py:350-355 | dispensing the front card moves it from the queue into a session, and every card is still in exactly one place |
| CardStates.StartAccounted | test_arduino.py:182-188 | a card in neither a session nor a payment is in the queue, and starting its session keeps every card in one place |
| CardStates.ScanAccounted | test_arduino.py:389-408 | moving a card from its session to awaiting payment keeps every card in one place, and the payer stays consistent |
| CardStates.PaidAccounted | test_arduino.py:458-464 | a paid card rejoins the queue, which has room for it, and every card is still in one place |
| CardStates.NextPayerOk | test_arduino.py:471-484 | serving the lowest-index card awaiting payment keeps the payer consistent |
| Controller.MatchCard | test_arduino.py:294-306 | the nested comparison loops return the card `CardOf` names |
| Controller.ApplyReservations | test_arduino.py:162-176 | the flags after the in-place token loop are the walk of the payload over the old flags |
| Controller.Controller.constructor | test_arduino.py:58-73 | the power-on values: no session, no payment, no overlay, every slot `O`, queue 0,1,2,3 |
| Controller.Controller.CoinInserted | test_arduino.py:133-137 | one more coin for the card being paid, and nothing at all when no card is |
| Controller.Controller.ReportSlots | test_arduino.py:320-340 | every slot's status is its `StatusCode` from occupancy and flags, and `SLOTS:` with the four statuses is written |
| Controller.Controller.StartSession | test_arduino.py:182-192 | a card 1..4 in neither a session nor a payment starts its session now and leaves the queue; otherwise nothing changes |
| Controller.Controller.HandleHostLine | test_arduino.py:159-193 | `RESV:` applies its split payload to the overlay and nothing else; `START:n` starts card n's session; any other line changes nothing |
| Controller.Controller.PressButton | test_arduino.py:345-378 | a card is dispensed exactly when the queue is not empty; that front card leaves the queue and its session starts now |
| Controller.Controller.ScanCard | test_arduino.py:380-420 | a recognised card in a session stops, owes the fee for the elapsed time as the 16-bit `paymentDue` stores it (test_arduino.py:60) with no coins, awaits payment, and becomes the payer unless one exists; otherwise nothing changes |
| Controller.Controller.ProcessPayment | test_arduino.py:422-486 | once the coins cover the payer's fee, its payment state and overlay are cleared, it rejoins the queue, `PAID:` is written and the lowest-index card awaiting payment becomes the payer; otherwise nothing changes |
| Controller.Controller.CompletePayment | test_arduino.py:458-469 | the card's payment state and overlay are cleared, it rejoins the queue, `PAID:` is written, and every card is still in one place |
| Controller.Controller.NextPayer | test_arduino.py:471-484 | the payer becomes the first card awaiting payment, or -1 |
| Controller.Controller.ReadHostCommands | test_arduino.py:156-158 | after all pending host lines the card-placement invariant still holds |
| Controller.Controller.Iterate | test_arduino.py:311-489 | one pass sets the statuses from the flags as they were at its start, writes `SLOTS:`, and writes at most one `PAID:` line after it, keeping every card in one place |
| Controller.Controller.ExitStation | test_arduino.py:380-486 | the exit side of a pass writes nothing or one `PAID:` line for a card 0..3 |
| Protocol.PaidReportRoundTrip | test_arduino.py:468-469 | the device's `PAID:` line for card c is decoded by the service (app.py:169, 184-186) as a payment report for spot c |
| Protocol.SlotsReportRoundTrip | test_arduino.py:333-340 | the device's `SLOTS:` line is decoded by the service (app.py:169-172) as its four status tokens in order |
| Protocol.ReservationOverlayClearsFlags | app.py:697-700 | the overlay reaches the device (test_arduino.py:159-176) as `RESV:` with the payload `O,O,O,O`, which clears all four reservation flags |
| Protocol.AllOpenPayload | test_arduino.py:164-176 | the payload `O,O,O,O` marks no slot reserved |
| Protocol.ParseStartLine | test_arduino.py:177-181 | `START:` followed by digits is read as a start command for the digits' value truncated to 16 bits |
| Protocol.StartCommandRoundTrip | app.py:758 | the service's `START:<id>` line reaches the device (test_arduino.py:177-181) as a start command for id truncated to 16 bits, which is id itself below 32768 |
| Protocol.StartIdWraps | test_arduino.py:181 | `START:` with card+65536 starts card 1..4, because the id is kept in a 16-bit `int` |
| Protocol.ForeignTagIgnored | test_arduino.py:159-193 | a line whose trimmed text starts with a tag other than `RESV:` or `START:` is not acted on |
| Protocol.CapacityHoldIgnored | app.py:718 | the `CAP:` line is not acted on by the device |
| Protocol.ArrivalIgnored | app.py:860 | the `HERE:` line is not acted on by the device |
| Protocol.IdentityOverlayIgnored | app.py:742-751 | the `RFID:` line is not acted on by the device |
| Text.TrimLeftSpec | test_arduino.py:160 | trimming the left keeps a suffix that starts with a non-space and drops only spaces |
| Text.TrimRightSpec | test_arduino.py:160 | trimming the right keeps a prefix that ends with a non-space and drops only spaces |
| Text.Strip | app.py:169 | the result is no longer and neither starts nor ends with whitespace (also the sketch's `trim`, test_arduino.py:160) |
| Text.StripNoSpace | app.py:172 | a piece without whitespace strips to itself |
| Text.StripFramed | app.py:169 | a line framed by a terminator strips back to the line when it neither starts nor ends with whitespace |
| Text.StripKeepsPrefix | test_arduino.py:159-161 | trimming keeps a prefix that starts and ends with a non-space |
| Text.RemoveSpaces | app.py:738 | the result has no space, the same other characters, and is no longer |
| Text.Split | app.py:172 | splitting gives at least one piece and no piece holds the separator |
| Text.SplitNoSep | app.py:172 | a piece without the separator splits into itself |
| Text.SplitAtSep | app.py:172 | splitting stops at the first separator |
| Text.SplitFourSingles | app.py:172 | four characters joined by commas split back into four one-character pieces |
| Text.Join | app.py:700 | the join starts with the first piece, and with two or more pieces the separator follows it |
| Text.SplitJoin | app.py:743 | splitting the join of pieces without the separator gives back the pieces |
| Text.JoinSplit | app.py:700 | joining the split of a string gives back the string |
| Text.IndexOf | test_arduino.py:165 | the position is -1 or inside the string |
| Text.IndexOfSpec | test_arduino.py:165 | -1 exactly when the character is absent, and otherwise the first position holding it |
| Text.SplitAtIndexOf | test_arduino.py:165-175 | the sketch's indexOf and substring extract the same pieces as the split |
| Text.NatToString | test_arduino.py:468 | decimal text is non-empty and all digits |
| Text.NatToStringValue | test_arduino.py:468 | the digits printed have the printed number as their value |
| Text.ParseInt | app.py:186 | a parsed integer comes from non-blank text |
| Text.ParseIntNatToString | app.py:186 | the service's int() reads back the number the device printed |
| Text.DigitPrefix | test_arduino.py:181 | the longest prefix of digits |
| Text.ToInt | test_arduino.py:181 | text with no digit reads as 0, and a negative value needs a minus sign |
| Text.ToIntOfDigits | test_arduino.py:180-181 | trimmed decimal digits read as their value |
| Text.ToIntNatToString | test_arduino.py:181 | the device's toInt reads back a printed number |
| Scenarios.ReservationsInArrivalOrder | app.py:655-670 | two users reserving in turn get spots 1 and 2 (cards 0 and 1), a repeat changes nothing, and cards 2,3 remain queued |
| Scenarios.PaymentReleasesSpot | app.py:184-198 | after a reservation, the device's `PAID:1` clears spot 1 and card 0 returns to the end of the queue |
| Scenarios.EnterAndScan | test_arduino.py:346-420 | from power-on, a button press at 1 s and the scan of card 0 at 13 s leave card 0 as the payer owing 15 with no coins, cards 1,2,3 queued and nothing written |
| Scenarios.ShortStayPaid | test_arduino.py:389-469 | a 12 s stay owes 15; two coins do not open the exit, the third does, `PAID:1` is written and card 0 returns to the end of the queue |

## Left out

- Flask routing, login and session decorators, templates, the CSV files, e-mail and verification codes: web plumbing and file, SMTP and random I/O.
- `api_rfid_scan` (app.py:765-828): a card-scan endpoint outside the coordination core. It first refuses an empty card id (400), an unknown card (404) and an account without a password (403), none of which is modelled. After finding the customer by card id, it does what `Service.Service.ImHere` does with spot id 0 for that customer's e-mail.
- The serial transport: opening and finding the port, buffer resets, write timeouts and the 150 ms pauses. A send succeeds exactly when the port is open, so a write that fails on an open port is not modelled.
- Concurrency between the service's reader thread and its request handlers, and the coin interrupt firing in the middle of the main loop: each event is one atomic step.
- Wall-clock floats: `time.time()` and the posted arrival time are whole seconds.
- Hardware: the ultrasonic `getDistance` (floating point) is replaced by distance inputs; servos, LCD, OLED, the I2C scan, `setup()` and every `delay` are left out.
- The device's diagnostic lines on the same serial link ("Dispensed Card", "Started timer for Card", the fee and payment messages): they start with none of the tags the service decodes, and `out` holds only protocol lines.
- The "\r\n" that `println` adds to device lines and the "\n" the service adds to its own: `Protocol` accounts for them; `out` and `SlotsLine`/`PaidLine` leave them out.
- One `millis()` reading per pass: the sketch reads the clock separately at each step of a pass; the model uses one `nowMs`.
- Python's `int()` accepts underscores between digits and Unicode digits; Python's `strip()` also removes the separators \x1c-\x1f and Unicode spaces. `Text.ParseInt` and `Text.Strip` handle ASCII whitespace only.
- `String::toInt` overflow past 32 bits is not modelled; the `START:` id is then kept in a 16-bit `int`, which is modelled.
- The device's `coinsInserted` is a 16-bit int; the model does not wrap it (it would take 32768 coins).
- `arrived = None` written by the service is modelled as `false`, which Python treats the same way.
- A UID shorter than four bytes: the sketch compares four bytes of a seven-byte buffer whatever the length; the model requires at least four bytes.
- Controller.Controller.ReadHostCommands: states only that the card-placement invariant holds after all lines, not the composed effect of the lines; each line's effect is stated by `Controller.Controller.HandleHostLine`.
- Controller.Controller.Iterate: states the statuses, the `SLOTS:` line, that at most one `PAID:` line follows and that every card stays in one place, not the composed new state of a pass. The new state is stated step by step: by `Controller.Controller.ReportSlots`, `Controller.Controller.PressButton`, `Controller.Controller.ScanCard` and `Controller.Controller.ProcessPayment`; for the host-command step only line by line, by `Controller.Controller.HandleHostLine`, since `Controller.Controller.ReadHostCommands` keeps only the invariant.
- Controller.Controller.ExitStation: states the shape of what is written and that every card stays in one place, not the composed new state of the scan and the payment; those are stated by `Controller.Controller.ScanCard` and `Controller.Controller.ProcessPayment`.
- Registry.Decode: its contract bounds the decoded card and spot numbers; the full decoding is stated through `Protocol.PaidReportRoundTrip` and `Protocol.SlotsReportRoundTrip` for the lines the device writes.

## Findings

| source | as written | input that shows it | evidently intended | confidence | as-written member | corrected member |
|---|---|---|---|---|---|---|
| test_arduino.py:60, 393 | `paymentDue` is a 16-bit `int` on the board, so `((totalTime + 4) / 5) * 5` is truncated to 16 bits; `Controller.Controller.ScanCard` stores the truncated fee, as the board does | a stay of 32766 s (about 9 h 6 min): the fee 32770 is stored as -32766, `coinsNeeded` is -6553, and zero coins open the exit | the fee for the whole stay, owed in full | not executed | DeviceRules.FreeExitAsWritten | DeviceRules.PaidInFullCoversStay |
