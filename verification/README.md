# nRF24 radio stack on an SPI engine, and a minimal printf

This project models the core of the `canvas` firmware in Dafny and proves properties of the model. The core has three parts.

- **The SPI transfer engine** (`canvas/src/spi.c`). One transfer descriptor is active at a time. `spi_Transfer` checks its arguments, selects the device and pushes the first byte. Each completion interrupt (`spi_ISR`) stores the byte clocked in, then either pushes the next byte or deselects the device, clears busy and calls the end-of-transfer callback.
- **The nRF24L01(+) driver** (`canvas/src/nrf24.c`), an interrupt-chained state machine on top of the engine.
  - Bring-up takes sixteen register writes and flushes, then raises CE.
  - Transmit writes the payload, then reads STATUS on the radio interrupt and classifies it as MAX_RT, TX_DS + RX_DR or TX_DS. Staged follow-up transfers come next.
  - Receive reads STATUS, clears it, reads the payload width, then reads the payload.
  - Two flags (`receive_request`, `send_request`) defer an ack-payload upload while a receive is being serviced.
- **`console_printf`** (`canvas/src/console.c`). It is modelled as a pure function from a format string and an argument list to the characters sent to the UART.

## Modules

- `Base` holds the `byte` type (C `uint8_t`), `ToByte` (C's low-eight-bit truncation) and `Option` (`None` stands for a NULL pointer).
- `Spi` is the engine. It is generic over buffer identities `B` and callback values `C`.
  - Memory is a map from buffer identity to bytes.
  - Every pushed byte is read from memory when it is pushed. So a transfer whose read and write buffers coincide (the driver's STATUS read) behaves as the C code does.
- `Nrf24Wire` holds the SPI command opcodes and register map of the nRF24L01+ Product Specification (section 8.3.1 "SPI commands" and chapter 9 "Register map"). It also gives the exact bytes of every bring-up step.
- `Nrf24` is the driver.
  - A `World` holds the driver state, the engine, the four scratch buffers by identity, and a trace of observable actions: bus transfers and application callbacks.
  - The function pointers passed to `spi_transfer` become the closed type `Cont`. The numeric `callback_stage` becomes the stage the continuation carries.
  - Every interrupt handler and callback runs to completion, so `Step` is a pure function over one `Event`. An event is an SPI completion with the byte clocked in, a radio IRQ edge, or an application call.
  - A driver assertion, an engine assertion or an out-of-bounds access halts the world.
- `Nrf24Props` proves whole protocols through the event interface: bring-up, transmit (acked, acked with payload, failed), receive, and the ack-payload deferral. It also proves the two source defects listed under Findings.
- `Console` and `ConsoleProps` cover printf.
  - Numbers are rendered by repeated subtraction. `ConsoleProps.Value`, a digit-string reader, is the independent partner that every numeric round trip is proved against.

## Model

| member | source | states |
|---|---|---|
| Spi.ModeFor | canvas/src/spi.c:75-88 | the frame format chosen has exactly the requested clock polarity and clock phase (Motorola modes 0 to 3) |
| Spi.Init | canvas/src/spi.c:104 | after `spi_init` the engine is configured with the mode for (cpol, cpha), not busy and deselected |
| Spi.Unconfigured | canvas/src/spi.c:109-112 | before `spi_init`, `spi_isBusy` is false and the device is deselected |
| Spi.Start | canvas/src/spi.c:114-132 | starting faults exactly when busy, `write` is NULL or `length` is 0, in that order of checks; it goes out of bounds exactly when a buffer is shorter than `length`; otherwise it stores the descriptor at index 0, selects the device and pushes `write[0]`, with nothing else changed |
| Spi.Poked | canvas/src/spi.c:142-156 | when `read` is present, `read[index]` becomes the incoming byte while every other byte of it and every other buffer keeps its value and length; when `read` is NULL memory is unchanged |
| Spi.Drive | canvas/src/spi.c:158-175 | a run of interrupts pushes one byte for every interrupt but a final one, and changes neither the set of buffers nor the frame format |
| Spi.ByteDone | canvas/src/spi.c:158-175 | one interrupt stores the incoming byte, then finishes exactly when index + 1 reaches length; otherwise it advances the index by one and pushes `write[index + 1]`; on finishing it clears busy, deselects and hands back `eot` |
| Spi.PokedStored | canvas/src/spi.c:153-155 | storing one byte is the one-byte case of storing a run of bytes |
| Spi.DriveStores | canvas/src/spi.c:153-155 | a run of interrupts stores its incoming bytes in order from the current index, and nothing else in the read buffer changes |
| Spi.DriveEnds | canvas/src/spi.c:162-173 | a run of interrupts ends the transfer (idle, deselected, `eot` handed back) exactly when it covers the remaining length; a shorter run only advances the index |
| Spi.DrivePushes | canvas/src/spi.c:139 | the bytes pushed are the write bytes after the current index, as they were before the run (even when read and write alias), and never a byte past `length` |
| Spi.DrivePushesAt | canvas/src/spi.c:162-164 | the k-th byte pushed by a run is write byte index + 1 + k |
| Spi.DriveStep | canvas/src/spi.c:158-164 | one pumped byte composes with the stores that follow, and leaves later write bytes untouched |
| Spi.RoundTrip | canvas/src/spi.h:26-34 | a whole transfer pushes `write[0..length)` in order; the read buffer holds the incoming bytes at `[0..length)` and is unchanged beyond; with no read buffer memory is unchanged; the engine is idle and deselected when it hands back the callback |
| Spi.BusyIffStartRefused | canvas/src/spi.h:18-24 | with valid arguments, busy holds exactly when a new transfer is refused |
| Spi.IdleBeforeCallback | canvas/src/spi.c:165-173 | when the last interrupt hands back the callback the engine is already idle, so the callback can start a new transfer |
| Nrf24Wire.StatusWriteBytes | canvas/src/nrf24.c:29 | 0x27 is W_REGISTER(STATUS) and 0x60 is TX_DS \| RX_DR, composed from the register map |
| Nrf24Wire.InitPacket | canvas/src/nrf24.c:268-455 | each bring-up step's packet has its documented length: six bytes for the two address writes, one byte for the two flushes, two bytes otherwise |
| Nrf24Wire.InitPacketNamed | canvas/src/nrf24.c:272-455 | every bring-up byte is the register-map composition the driver writes, including CONFIG at 0x0C/0x0D powered down and 0x0E/0x0F powered up, the two 5-byte 0xE7 addresses, ACTIVATE 0x50 0x73, and FLUSH_TX/FLUSH_RX |
| Nrf24.Transfer | canvas/src/nrf24.c:262 | a driver transfer runs exactly when the engine is idle, the length is non-zero and everything fits the scratch buffers; busy and zero length give the engine's assertion; on success the packet bytes lead the input buffer, the descriptor is stored and exactly one `Issued` action joins the trace |
| Nrf24.Reset | canvas/src/nrf24.c:180-191 | `nrf24_init`'s reset leaves step 0, not ready, CE low, IRQ masked, not transmitting, no receive callback and both rendezvous flags down, with an idle engine and an empty trace |
| Nrf24.InitStepTransfer | canvas/src/nrf24.c:272-455 | steps 0 to 15 keep the world invariant (buffer sizes, a consistent engine) and only extend the trace; `InitAdvances` states what they send |
| Nrf24.InitSequenceAsWritten | canvas/src/nrf24.c:268-469 | the bring-up sequence as written keeps the world invariant; `InitStallsAsWritten` states its defect |
| Nrf24.InitSequence | canvas/src/nrf24.c:268-469 | the corrected sequence keeps the world invariant; `BringUp` states that it completes |
| Nrf24.Init | canvas/src/nrf24.c:178-205 | `nrf24_init` always starts running and keeps the invariant |
| Nrf24.InitReturn | canvas/src/nrf24.c:207-213 | the end of `nrf24_init` keeps the world invariant and only extends the trace |
| Nrf24.CommenceTransmission | canvas/src/nrf24.c:471-477 | keeps the world invariant; `TransmitSends` states the bytes |
| Nrf24.Transmit | canvas/src/nrf24.c:216-227 | keeps the world invariant; `TransmitChecks` and `TransmitSends` state its behaviour |
| Nrf24.Receive | canvas/src/nrf24.c:236-243 | keeps the world invariant; `ReceiveChecks` states its behaviour |
| Nrf24.StoreAckPayload | canvas/src/nrf24.c:245-266 | keeps the world invariant; `StoreAckChecks` states its behaviour |
| Nrf24.StatusReadTransfer | canvas/src/nrf24.c:509-511 | keeps the world invariant; `StatusReadStarts` states the NOP read |
| Nrf24.AckStoredAsWritten | canvas/src/nrf24.c:479-487 | keeps the world invariant; `AckDroppedAsWritten` states its defect |
| Nrf24.AckStored | canvas/src/nrf24.c:479-487 | the corrected handler keeps the world invariant; `AckReplayed` states the replay |
| Nrf24.RadioIrq | canvas/src/nrf24.c:489-512 | keeps the world invariant; `RadioIrqDefers` states its behaviour |
| Nrf24.StatusRead | canvas/src/nrf24.c:514-546 | keeps the world invariant; `StatusClassified` states the classification |
| Nrf24.TxSent | canvas/src/nrf24.c:548-557 | keeps the world invariant; `AckedTail` states the success report |
| Nrf24.TxAckStep | canvas/src/nrf24.c:559-593 | keeps the world invariant; `AckAfterStatus` states the three stages |
| Nrf24.MaxRtStep | canvas/src/nrf24.c:595-619 | keeps the world invariant; `FailedTail` states the flush and the failure report |
| Nrf24.RxStep | canvas/src/nrf24.c:621-660 | keeps the world invariant; `RxAfterStatus` and `RxDelivers` state the three stages |
| Nrf24.Dispatch | canvas/src/nrf24.c:268-660 | running the continuation a finished transfer names (the bring-up sequence, the upload-done handler, the STATUS handler or one of the TX, ack, MAX_RT and RX stage handlers) keeps the invariant |
| Nrf24.Finish | canvas/src/spi.c:171-173 | the callback runs only if one was given, and the invariant is kept |
| Nrf24.Step | canvas/src/nrf24.h:18-64 | one event (an SPI completion, a radio IRQ edge, the end of `nrf24_init`, or a call of the driver's interface): a halted system stays halted, and a running one keeps the invariant and only extends its trace |
| Nrf24.Run | canvas/src/nrf24.h:18-64 | a sequence of events keeps the invariant, a halt is final, and the trace only grows |
| Nrf24.Clocked | canvas/src/spi.c:158 | the i-th SPI interrupt clocks in the i-th incoming byte |
| Nrf24Props.Exchange | canvas/src/spi.c:158-175 | a driver transfer fed the interrupts for its remaining bytes stores them, goes idle and then runs its continuation |
| Nrf24Props.Settled | canvas/src/spi.c:165-169 | a completed transfer leaves the invariant, the driver state, the trace and the mode as they were, with the engine idle |
| Nrf24Props.InitStarts | canvas/src/nrf24.c:272-283 | `nrf24_init` configures the bus for mode 0 and puts step 0's CONFIG write on it, with step 1 next |
| Nrf24Props.InitAdvances | canvas/src/nrf24.c:285-444 | completing step k's transfer (k < 15) puts exactly step k + 1's packet on the bus, with the bring-up continuation |
| Nrf24Props.InitCompletes | canvas/src/nrf24.c:446-467 | with step 16 corrected, completing the power-up write raises CE and sets ready at step 17, with the bus idle and no further transfer |
| Nrf24Props.BringUpFrom | canvas/src/nrf24.c:268-469 | from any step k in flight, the remaining completions reach the ready state with the whole bring-up trace |
| Nrf24Props.InitReturnOnce | canvas/src/nrf24.c:207-213 | the end of `nrf24_init` happens once bring-up has set `init`: it then unmasks the IRQ line and changes nothing else; before that it does nothing, and a second time it does nothing |
| Nrf24Props.Operational | canvas/src/nrf24.c:178-213 | `nrf24_init` as a whole, for any bytes clocked back: the driver ends ready, IRQ line unmasked, bus idle, with no transmission, callback, request or deferred packet pending, after exactly the sixteen configuration packets |
| Nrf24Props.BringUp | canvas/src/nrf24.c:178-205 | for any bytes the radio clocks back, bring-up sends the sixteen configuration packets in order, each after the previous completed; it sets mode 0, raises CE and becomes ready with the IRQ line still masked and the bus idle |
| Nrf24Props.SameEarlySteps | canvas/src/nrf24.c:272-455 | the corrected and as-written sequences agree on steps 0 to 15 |
| Nrf24Props.StallStep | canvas/src/nrf24.c:489-495 | in the stalled state (not ready, IRQ masked, no bring-up continuation on the bus) every event keeps the stall or halts |
| Nrf24Props.StallRun | canvas/src/nrf24.c:457-467 | the stall is permanent under any sequence of events |
| Nrf24Props.InitStallsAsWritten | canvas/src/nrf24.c:457-467 | as written, completing step 15 runs step 16, which raises CE and starts nothing; no later event makes the driver ready, whereas the corrected step 16 does |
| Nrf24Props.TransmitChecks | canvas/src/nrf24.c:218-221 | `nrf24_transmit` halts outside TX mode, while transmitting, on NULL data and on a length outside 1..32, in that order |
| Nrf24Props.TransmitSends | canvas/src/nrf24.c:223-227 | a valid transmit marks the driver transmitting with the given callback and sends W_TX_PAYLOAD then the payload in one (length + 1)-byte transfer with no continuation |
| Nrf24.IsBusy | canvas/src/nrf24.c:229-234 | `nrf24_IsBusy` answers exactly in TX mode, with whether a transmission is in progress, and otherwise halts on its assertion |
| Nrf24Props.IsBusyGatesTransmit | canvas/src/nrf24.h:48-51 | on an idle bus and with a valid payload, `nrf24_IsBusy` answers "not busy" exactly when `nrf24_transmit` accepts the payload |
| Nrf24Props.StatusReadStarts | canvas/src/nrf24.c:509-511 | the STATUS read sends NOP, reads into the same input buffer and continues with the status callback |
| Nrf24Props.StatusClassified | canvas/src/nrf24.c:514-546 | the STATUS byte clocked in is classified as the source does: for a transmitter MAX_RT first (clear 0x10), then RX_DR (clear 0x60, read the ack payload), else TX_DS (clear 0x20); a receiver always clears 0x60 |
| Nrf24Props.StatusClassifiedIdle | canvas/src/nrf24.c:518-545 | the clearing write's bytes and continuation as a function of role and STATUS |
| Nrf24Props.CallbackMayRetransmit | canvas/src/nrf24.h:43-51 | in every TX completion path `transmitting` is cleared before the callback, so a new transmit is accepted |
| Nrf24Props.PayloadWritten | canvas/src/nrf24.c:471-477 | the payload write completes and, having no continuation, leaves the driver waiting for the radio |
| Nrf24Props.StatusReadRuns | canvas/src/nrf24.c:497-511 | a transmitter's radio interrupt masks the line, and the NOP read stores STATUS in the first input byte |
| Nrf24Props.TransmitToStatus | canvas/src/nrf24.c:216-227 | the common start of every transmission: payload write, then interrupt, then STATUS read, with the line masked |
| Nrf24Props.TransmitAcked | canvas/src/nrf24.c:548-557 | an ack without payload, end to end: four actions in order, success reported with no payload, the line unmasked and the driver idle |
| Nrf24Props.AckedTail | canvas/src/nrf24.c:532-557 | after STATUS: TX_DS cleared, then `transmitting` cleared and success reported |
| Nrf24Props.TransmitFails | canvas/src/nrf24.c:595-619 | exhausted retransmits, end to end: MAX_RT cleared, FLUSH_TX sent, and only after it completes `transmitting` is cleared and failure reported with no payload |
| Nrf24Props.FailedTail | canvas/src/nrf24.c:521-524 | after STATUS with MAX_RT: the clearing write, the flush, then the failure report |
| Nrf24Props.MaxRtCleared | canvas/src/nrf24.c:598-608 | the MAX_RT clearing completes, the line is unmasked and FLUSH_TX goes on the bus |
| Nrf24Props.ReadBackPayloadRuns | canvas/src/nrf24.c:574-581 | width read (2 bytes, width second) then payload read (width + 1 bytes, status first); the final stage finds exactly the bytes clocked in after the status byte |
| Nrf24Props.WidthReadRuns | canvas/src/nrf24.c:636-641 | the width read completes and an R_RX_PAYLOAD read of width + 1 bytes starts |
| Nrf24Props.PayloadReadStarts | canvas/src/nrf24.c:574-581 | with the width known, the payload read of width + 1 bytes goes on the bus |
| Nrf24Props.PayloadReadRuns | canvas/src/nrf24.c:583-591 | the payload read completes with the payload where the last stage reads it |
| Nrf24Props.TransmitAckPayload | canvas/src/nrf24.c:559-593 | an ack with payload, end to end: STATUS clear 0x60, R_RX_PL_WID, R_RX_PAYLOAD, then success with exactly the payload the radio sent |
| Nrf24Props.AckAfterStatus | canvas/src/nrf24.c:559-593 | after STATUS with RX_DR: the three transfers in order, then success with the payload |
| Nrf24Props.TxAckClearRuns | canvas/src/nrf24.c:562-572 | the clearing write completes, the line is unmasked, and the 2-byte width read into the TX length buffer starts |
| Nrf24Props.ReceiveChecks | canvas/src/nrf24.c:236-243 | `nrf24_receive` halts outside RX mode, on a second registration and on a NULL callback; otherwise it registers the callback |
| Nrf24Props.StoreAckChecks | canvas/src/nrf24.c:245-266 | `nrf24_storeAckPayload` halts outside RX mode; during a receive it only remembers the payload (last call wins); otherwise, on an idle bus, it uploads 0xA8 and the payload with `send_request` raised, while on a busy bus (say a second call during the first upload) the engine's busy assertion halts; a payload overrunning the 40-byte buffer halts |
| Nrf24Props.RadioIrqDefers | canvas/src/nrf24.c:489-512 | the IRQ handler before bring-up only masks the line; a receiver records `receive_request` and starts nothing while an upload is in flight; otherwise it starts the NOP STATUS read when the bus is idle, and halts on the engine's busy assertion when another transfer is in flight (in either mode) |
| Nrf24Props.IrqDuringRxRead | canvas/src/nrf24.c:489-632 | the receive handler (nrf24.c:626-632) unmasks the IRQ line before the width and payload reads, so a radio interrupt right after the clearing write (no upload pending) starts a STATUS read on the busy bus and halts on the engine's assertion |
| Nrf24Props.RxDelivers | canvas/src/nrf24.c:645-658 | receive completion calls the callback with the payload, drops `receive_request`, and uploads the remembered payload next exactly when `send_request` is set |
| Nrf24Props.RxAfterStatus | canvas/src/nrf24.c:621-643 | a receive after STATUS: clear 0x60 (unmasking), width read, payload read, in order |
| Nrf24Props.RxClearRuns | canvas/src/nrf24.c:538-545 | the STATUS read and the clearing write complete and the width read into the RX length buffer starts |
| Nrf24Props.RxClearAfterRead | canvas/src/nrf24.c:624-634 | the clearing write completes, the line is unmasked, and the width read starts |
| Nrf24Props.RxReadsUploadNothing | canvas/src/nrf24.c:621-643 | none of the three receive transfers is an ack upload |
| Nrf24Props.ReceiveOne | canvas/src/nrf24.h:56-62 | a packet received end to end reaches the registered callback as exactly the bytes clocked in after the status byte, with the line unmasked and the bus idle |
| Nrf24Props.SecondAckDeferred | canvas/src/nrf24.c:245-266 | a second payload stored while an upload is in flight and an IRQ is pending is only remembered, and nothing new goes on the bus |
| Nrf24Props.AckDroppedAsWritten | canvas/src/nrf24.c:479-487 | as written, after the first upload completes and the receive is serviced, the driver is idle with both flags down and the remembered payload is never uploaded |
| Nrf24Props.NoUploadAfterStatus | canvas/src/nrf24.c:653-656 | a receive serviced with `send_request` down uploads nothing and leaves both flags down |
| Nrf24Props.QuietDelivery | canvas/src/nrf24.c:645-658 | the end of such a receive adds no ack upload to the trace |
| Nrf24Props.AckReplayed | canvas/src/nrf24.c:653-656 | with the correction, the same events end with the remembered payload `b` uploaded, immediately after the receive callback with the received data, and it is the only ack upload after the three opening events |
| Nrf24Props.ReplayAfterUpload | canvas/src/nrf24.c:482-486 | the corrected upload handler resumes the pending receive: exactly the STATUS read, the clearing write, the width read, the payload read, the receive callback with the data, and then the upload of the remembered payload, in that order |
| Nrf24Props.ReplayUploadsOnce | canvas/src/nrf24.c:645-656 | in such a receive the upload comes last, right after the callback, and no earlier action is an ack upload |
| Console.DigitChar | canvas/src/console.c:158-162 | a digit becomes a digit character, and a decimal digit character exactly when it is below ten |
| Console.Emit | canvas/src/console.c:164-176 | the digits of repeated subtraction over k + 1 places: at least one and at most k + 1 digit characters, all k + 1 once a digit has shown |
| Console.Decimal | canvas/src/console.c:86-95 | the ten `console_divOut` places and the final digit give one to ten digit characters |
| Console.DecimalField | canvas/src/console.c:78-96 | `%u`/`%d` text is one to eleven characters and starts with '-' exactly for `%d` of a negative value |
| Console.HexField | canvas/src/console.c:98-110 | `%x`/`%X` text is one to eight digit characters |
| Console.CharOf | canvas/src/console.c:113 | the cast `(char)` keeps the argument modulo 256 |
| Console.Field | canvas/src/console.c:74-124 | a conversion fails only for a conversion that takes an argument; on success it consumes exactly one argument for `u d x X c s` and none otherwise, and leaves the rest in order |
| Console.Padding | canvas/src/console.c:127-135 | the pad brings the field up to the width when it is shorter, and every pad character is '0' with the flag and ' ' without |
| Console.Render | canvas/src/console.c:49-51 | a format with no '%' never fails and prints a prefix of itself |
| Console.Conversion | canvas/src/console.c:74-139 | a directive with a conversion character prints at least its width |
| Console.Printf | canvas/src/console.c:41-146 | a successful call ends with the NUL every call emits |
| Console.Pow | canvas/src/console.c:86-108 | powers of a positive base are positive |
| Console.DivSub | canvas/src/console.c:164-171 | the subtraction loop yields quotient and remainder: q * div + r == num with r < div |
| Console.QuotientFits | canvas/src/console.c:166-171 | the digit `console_divOut` counts is below the base |
| Console.CString | canvas/src/console.c:137-139 | a C string is the longest NUL-free prefix |
| Console.ScanWidth | canvas/src/console.c:62-68 | the width loop consumes a prefix and returns the suffix of the format |
| Console.Repeat | canvas/src/console.c:133-135 | n copies of the pad character |
| ConsoleProps.DigitCharRoundTrip | canvas/src/console.c:158-162 | `console_outDgt` writes '0'-'9' for digits below ten and 'A'-'F' or 'a'-'f' above, and the character reads back as the digit |
| ConsoleProps.EmitRoundTrip | canvas/src/console.c:164-176 | the digits produced by repeated subtraction read back as the number; leading zeros are suppressed, once a digit shows every later one does, and the last digit always shows |
| ConsoleProps.PrependDigit | canvas/src/console.c:173-175 | a digit written before a numeral contributes its value times the base to the numeral's length |
| ConsoleProps.DecimalRoundTrip | canvas/src/console.c:86-95 | decimal rendering gives at most ten digits, no leading zero, reading back as the value |
| ConsoleProps.UnsignedRoundTrip | canvas/src/console.c:78-96 | `%u` renders the unsigned value in decimal without leading zeros, and it reads back as the value |
| ConsoleProps.CanonicalZero | canvas/src/console.c:95 | the only canonical numeral of zero is "0" |
| ConsoleProps.ZeroIsOneDigit | canvas/src/console.c:95-109 | zero renders as "0" in decimal and in hex |
| ConsoleProps.SignedRoundTrip | canvas/src/console.c:81-84 | `%d` of a negative value is '-' then the magnitude (INT_MIN included, through the wrap); the text reads back as the signed value, starts with '-' exactly when negative, and is at most eleven characters |
| ConsoleProps.Negated | canvas/src/console.c:81-84 | '-' before a numeral reads back as its negation |
| ConsoleProps.Unsigned | canvas/src/console.c:86-95 | a numeral without sign reads back as its value |
| ConsoleProps.HexRoundTrip | canvas/src/console.c:98-110 | `%x`/`%X` give at most eight hex digits without leading zeros, in the conversion's letter case, reading back as the value |
| ConsoleProps.Conversions | canvas/src/console.c:112-124 | `%c` takes one `int` and prints the character of its low eight bits (nothing when they are zero), `%s` the string up to its NUL, `%%` gives '%' with no argument, an unknown conversion gives nothing; a conversion needing an argument fails when none is left |
| ConsoleProps.ScratchFits | canvas/src/console.c:17 | number and character fields are at most 11 characters, fitting the 12-byte scratch buffer with its terminator |
| ConsoleProps.NumeralNoNul | canvas/src/console.c:158-162 | digit strings contain no NUL |
| ConsoleProps.DecimalNoNul | canvas/src/console.c:78-96 | `%u`/`%d` text contains no NUL |
| ConsoleProps.FieldNoNul | canvas/src/console.c:127-139 | no field text contains a NUL, so the padding count and copy loops see all of it |
| ConsoleProps.ModShift | canvas/src/console.c:65 | truncating the running width to a `char` before the next digit does not change the result modulo 256 |
| ConsoleProps.ScanWidthValue | canvas/src/console.c:62-68 | the width is the decimal value of its digits modulo 256, and scanning stops at the first non-digit |
| ConsoleProps.WidthStep | canvas/src/console.c:65 | folding one digit in is the same modulo 256 before or after the remaining digits |
| ConsoleProps.PaddedField | canvas/src/console.c:127-139 | a padded field is max(w, field length) characters: the pad characters ('0' with the flag, else ' ') first, then the field |
| ConsoleProps.DirectiveRenders | canvas/src/console.c:52-140 | a directive outputs its padding (width modulo 256 less the field length), then the field, then the rest of the format with the arguments it left |
| ConsoleProps.ConversionStep | canvas/src/console.c:74-139 | the conversion character selects the field; padding goes before it and the rest of the format after |
| ConsoleProps.DirectiveWidth | canvas/src/console.c:53-68 | after '%', the flag and the width digits, the conversion starts with the width's value modulo 256 |
| ConsoleProps.FlagSkipped | canvas/src/console.c:56-60 | the '0' flag is recognised exactly when written, and the width digits follow it |
| ConsoleProps.PlainMeansNoPercent | canvas/src/console.c:49-51 | a format is plain text, with no directive, exactly when it holds no '%' |
| ConsoleProps.LiteralCopied | canvas/src/console.c:49-51 | characters other than '%' are copied verbatim and in order ahead of the rest of the output |
| ConsoleProps.Verbatim | canvas/src/console.c:49-51 | a format without directives prints itself and one NUL |
| ConsoleProps.TruncatedDirective | canvas/src/console.c:56-76 | a '%', with optional flag and width, at the end of the format stops processing: only the text before it and the NUL are printed |
| ConsoleProps.RenderNoNul | canvas/src/console.c:137-139 | the characters before the closing NUL contain no NUL |
| ConsoleProps.OneTerminator | canvas/src/console.c:143-144 | every call ends with exactly one NUL, its last character |

## Left out

- Hardware set-up is not modelled: SSI, GPIO and SysCtl configuration in `spi_init`, the `SSIBusy` polling (a push and a pull are atomic here), and pin assignments. Only the mode mapping and the busy reset remain.
- In `nrf24_init` the pin set-up, the start-up and CE delays, and the foreground spin on `init` are left out. `InitReturns` is the event of that spin ending. `Nrf24.Reset` models the state reset of a first call, with the statics zero-initialised.
- Interrupt priorities and preemption are not modelled. Every ISR and callback runs to completion, and so does the commented-out critical section in `nrf24_storeAckPayload`.
- A radio IRQ edge while the line is masked is dropped. The GPIO hardware may latch it and deliver it on unmasking; the model leaves that to the environment, which may send the edge again after the line is unmasked.
- A radio IRQ that arrives while the receive handler's width or payload read is in flight (the handler unmasks the line at nrf24.c:626, before those reads) halts on the engine's busy assertion, as the code does (`IrqDuringRxRead`). The model does not choose a correction, because the source gives no sign which one is intended: unmasking after the reads, or deferring in the IRQ handler while the bus is busy.
- Radio-chip behaviour is not modelled. STATUS, width and payload bytes are inputs clocked in by the environment.
- Application callbacks are recorded in the trace, not executed. A driver call made inside a callback is modelled as the next event, after the handler that made the callback has finished.
- Nrf24.RxStep: a receive callback that calls `nrf24_storeAckPayload` runs, in C, while `receive_request` is still set (nrf24.c:649-651), so the payload is only remembered and then uploaded once by nrf24.c:653-656. The model runs that store after the handler. With no payload remembered the outcome is the same upload. With a payload already remembered, the model uploads the older payload and the later store halts on the busy engine, where C uploads the newer payload.
- `nrf24_storeAckPayload` remembers the payload's bytes, not its pointer. The C code re-reads the caller's memory when it replays.
- Nothing checks the lengths `nrf24_storeAckPayload` and the width read accept, and the source checks them neither. An overrun of the 40-byte scratch buffer is a `Halted(Overrun)` outcome, as undefined behaviour. A width whose `width + 1` truncates to 0 halts with the engine's zero-length assertion.
- `transmit` and `storeAckPayload` do not test `init`, and the model adds no such check.
- `assert` (a UART message and an endless loop) is a final `Halted` outcome. The UART output of `console_printf` is the returned character sequence. `console_init` is left out.
- Console: a printf argument of the wrong kind, or a missing argument, is undefined behaviour in C and yields `None`.
- Console: `char` is unsigned, as on the ARM target. The field width therefore accumulates modulo 256. Signed-`char` platforms are not modelled.
- Console: the format and `%s` strings are sequences of Dafny characters, not limited to eight bits. The model only compares their characters with '%', '0'-'9' and NUL and copies the rest, so a string of bytes behaves as in C. `%c` does take an `int` and keep its low eight bits.
- Console: `%d` of INT_MIN negates with two's-complement wrap-around and prints -2147483648. C leaves that negation undefined.
- `spi.h` says `eot` must not be NULL, but `spi_ISR` tests it (spi.c:171) and the driver passes NULL for the payload write. The model follows the code: the callback is optional.
- Both `spi_transfer`/`spi_Transfer` and `nrf24_isBusy`/`nrf24_IsBusy` are modelled as one operation per pair.
- Nrf24.InitStepTransfer, Nrf24.InitSequence, Nrf24.InitSequenceAsWritten, Nrf24.Init and Nrf24.InitReturn state only the world invariant; `BringUp`, `InitReturnOnce` and `Operational` state their effects.
- Nrf24.CommenceTransmission, Nrf24.Transmit, Nrf24.Receive, Nrf24.StoreAckPayload and Nrf24.StatusReadTransfer state only the world invariant; the `*Checks`, `*Sends` and `*Starts` lemmas state their effects.
- Nrf24.AckStored, Nrf24.AckStoredAsWritten, Nrf24.RadioIrq, Nrf24.StatusRead, Nrf24.TxSent, Nrf24.TxAckStep, Nrf24.MaxRtStep, Nrf24.RxStep, Nrf24.Dispatch and Nrf24.Finish state only the world invariant; the protocol lemmas of `Nrf24Props` state their effects.

## Findings

| source | as written | input that shows it | evidently intended | confidence | as-written member | corrected member |
|---|---|---|---|---|---|---|
| canvas/src/nrf24.c:457-467 | bring-up step 16 raises CE and advances `init_step` to 17 without starting a transfer, so no completion ever runs step 17, the only step that sets `init`; `nrf24_init` spins forever | `nrf24_init(NRF24_TX)` with any bytes clocked back for the sixteen bring-up transfers | step 16 is followed by step 17, so the driver becomes ready | not executed | Nrf24Props.InitStallsAsWritten | Nrf24Props.BringUp |
| canvas/src/nrf24.c:479-487 | `nrf24_StoreAckDone` clears `send_request` unconditionally, so a payload remembered while the first upload was in flight is never replayed when the pending receive completes | RX mode: `storeAckPayload(a)`, a radio IRQ, `storeAckPayload(b)`, then the upload of `a` completes and the receive is serviced | `b` is uploaded at the end of the receive, as nrf24.c:653-656 intends | not executed | Nrf24Props.AckDroppedAsWritten | Nrf24Props.AckReplayed |
