# Elan KTF2K touch-controller driver — a Dafny model

This project models the protocol logic of the Linux driver for the Elan KTF2K
capacitive touch controller (`drivers/input/touchscreen/ektf2k.c`). The driver
talks to the chip over I2C. It sends 4-byte request and write frames. It checks
4-byte responses for the 0x52 marker and for the echoed command. It decodes the
firmware version and the sensor width and height. In its interrupt thread it
receives 25-byte frames and dispatches them on the opcode in byte 0. A touch
report (0x5D) carries five packed 3-byte finger slots. The driver decodes each
slot to a 12-bit (x, y) pair, maps the pair to screen coordinates (scale, then
revert, then exchange) and reports the result to the input device as key,
absolute-axis and synchronisation events.

Modules:

- `Wire` (wire.dfy): bytes (the values 0..255), frames (`seq<byte>`), the
  opcode and value constants of the driver's `#define`s, and the bit masks the
  driver applies, written as arithmetic and shown equal to the `bv8`
  operations.
- `Ctp` (ctp.dfy): the orientation part of the board configuration and
  `ektf2k_ctp_coordinates`. C's truncating division is written out as `CDiv`,
  because a screen maximum may be negative: the configuration parser only
  rejects zero.
- `Messages` (messages.dfy): the request and write frames, and the decoders
  applied to responses.
- `Touch` (touch.dfy): `ektf2k_report_coordinates` and the event sequence of
  `ektf2k_report`, as functions, plus the opcode dispatch of `ektf2k_irq`.
- `Bus` (bus.dfy): the I2C bus as an object.
  - Its `Script` fixes in advance the byte count each send reports, and the
    count and bytes each receive delivers.
  - It records every frame sent.
  - An exhausted script answers -5.
- `Driver` (driver.dfy): the per-device state of `struct ektf2k_data` as the
  class `Ektf2k`. It holds the firmware version, width, height, the events
  handed to the input device, and whether the interrupt is enabled. It has one
  method per driver function. These methods are proved against the functions
  `Transact` (one `ektf2k_transcv`), `QueryInfos` (the three queries of
  `ektf2k_get_firmware_infos`) and `ReportEvents`.

Bytes are 0..255. On the ARM target `char` is unsigned, so `buffer[2] << 8`
does not sign-extend. Two conditions the driver never checks are preconditions
here:

- the sensor width and height it divides by are positive (`Scalable`);
- every `x * screen_max_x` product fits in a C `int`.

`Scalable` is required only when a report with a non-zero count and a touched
slot actually scales a point (`Touches`).

Two behaviours that read as unintended are modelled exactly as the code has
them:

- An empty slot in a report with fingers emits `BTN_TOUCH = 1`. It is not a
  release.
- `ektf2k_resume` only logs the read-back results. A read that fails returns
  -1, which the `!enabled` test does not flag: `Resume` returns which of the
  two warnings would be logged, and a warning means the chip answered "off".

## Model

| member | source | states |
|---|---|---|
| `Wire.Low3IsMask` | drivers/input/touchscreen/ektf2k.c:589 | the low-three-bits function agrees with `b & 0x07` on every byte |
| `Wire.LowNibbleIsMask` | drivers/input/touchscreen/ektf2k.c:571 | the low-nibble function agrees with `b & 0x0f` on every byte |
| `Wire.HighBitsIsMask` | drivers/input/touchscreen/ektf2k.c:533 | the high-nibble function agrees with `b & 0xf0` on every byte |
| `Wire.Bit3IsMask` | drivers/input/touchscreen/ektf2k.c:492 | the bit-3 function agrees with `b & (1 << 3)` on every byte |
| `Wire.SetBit3` | drivers/input/touchscreen/ektf2k.c:465-469 | or-ing a 0/1 mode into bit 3 sets bit 3 when the mode is 1, keeps it otherwise, and leaves every other bit alone |
| `Wire.SetBit3IsOr` | drivers/input/touchscreen/ektf2k.c:465-469 | setting bit 3 agrees with `b \| (v << 3)` on every byte and mode 0 or 1 |
| `Ctp.CDiv` | drivers/input/touchscreen/ektf2k.c:197-198 | C integer division by a positive divisor: the quotient rounds toward zero (q·b ≤ a < (q+1)·b for a ≥ 0, and (q−1)·b < a ≤ q·b for a < 0) |
| `Ctp.CDivBounds` | drivers/input/touchscreen/ektf2k.c:197-198 | the truncated quotient lies between 0 and the dividend, for either sign |
| `Ctp.CDivMonotone` | drivers/input/touchscreen/ektf2k.c:197-198 | truncating division by a positive divisor is monotone, including across zero |
| `Ctp.Scale` | drivers/input/touchscreen/ektf2k.c:197-198 | step 1 of the mapping: `v * screen_max / sensor_max` with C truncating division |
| `Ctp.Revert` | drivers/input/touchscreen/ektf2k.c:200-204 | step 2: a reverted axis is `screen_max - v` |
| `Ctp.Swap` | drivers/input/touchscreen/ektf2k.c:206-210 | step 3: exchanging the axes swaps x and y |
| `Ctp.Normalise` | drivers/input/touchscreen/ektf2k.c:192-211 | scale, revert and exchange produce C ints whenever the products fit and the sensor dimensions are positive |
| `Ctp.ScaleMonotone` | drivers/input/touchscreen/ektf2k.c:197-198 | scaling `v * screen_max / sensor_max` is non-decreasing in v for a non-negative screen maximum, and non-increasing for a negative one |
| `Ctp.ScaleWithinScreen` | drivers/input/touchscreen/ektf2k.c:197-198 | a raw value in [0, sensor_max] scales into [0, screen_max] |
| `Ctp.RevertInvolutive` | drivers/input/touchscreen/ektf2k.c:200-204 | reverting an axis twice gives the value back, and reverting keeps [0, screen_max] |
| `Ctp.SwapInvolutive` | drivers/input/touchscreen/ektf2k.c:206-210 | exchanging the axes twice gives the point back |
| `Ctp.NormaliseInBox` | drivers/input/touchscreen/ektf2k.c:192-211 | a sensor point in [0, width] × [0, height] lands in [0, screen_max_x] × [0, screen_max_y], or in the exchanged box when exchange_x_y is set |
| `Ctp.NormaliseExchangesLast` | drivers/input/touchscreen/ektf2k.c:192-211 | the exchange is applied after scaling and reverting: with the flag set the result is the swap of the result without it |
| `Messages.FirmwareVersionOf` | drivers/input/touchscreen/ektf2k.c:533 | firmware_version is byte 2 followed by the high nibble of byte 3: a multiple of 16 in [0, 0xFFF0] whose high byte is r[2] |
| `Messages.DimensionOf` | drivers/input/touchscreen/ektf2k.c:543-553 | width and height are the high nibble of byte 3 above byte 2: at most 0xFFF, with low byte r[2] |
| `Messages.SetPacketStateFrame` | drivers/input/touchscreen/ektf2k.c:424-430 | the packet write {0x54, 0x8E, state, 0x01}, with state 0x00 to turn reporting on and 0x01 to turn it off |
| `Messages.SetPowerStateFrame` | drivers/input/touchscreen/ektf2k.c:463-469 | the power write {0x54, 0x50, 0x00, 0x01} with the mode or-ed into bit 3 of byte 1 |
| `Messages.PacketStateOf` | drivers/input/touchscreen/ektf2k.c:453-458 | an accepted packet-state answer says on unless byte 2 is 0x01 |
| `Messages.PowerStateOf` | drivers/input/touchscreen/ektf2k.c:492-497 | an accepted power-state answer says on unless bit 3 of byte 1 is clear |
| `Messages.FingerStateOf` | drivers/input/touchscreen/ektf2k.c:512-517 | an accepted finger-state answer says on unless byte 2 is 0 |
| `Messages.FirmwareVersionRoundTrip` | drivers/input/touchscreen/ektf2k.c:533 | every version the encoding can carry is recovered from the chip's answer, whatever the ignored low nibble of byte 3 holds |
| `Messages.DimensionRoundTrip` | drivers/input/touchscreen/ektf2k.c:543-553 | every 12-bit width or height is recovered from the chip's answer, whatever the low nibble of byte 3 holds |
| `Messages.FirmwareVersionExample` | drivers/input/touchscreen/ektf2k.c:533 | the answer {0x52, 0x00, 0x01, 0xF0} carries version 0x1F0 |
| `Messages.StateFramesOnWire` | drivers/input/touchscreen/ektf2k.c:422-478 | the power writes are {0x54, 0x58, 0x00, 0x01} (normal) and {0x54, 0x50, 0x00, 0x01} (sleep); the packet writes are {0x54, 0x8E, 0x00 on / 0x01 off, 0x01} |
| `Messages.PowerReadBack` | drivers/input/touchscreen/ektf2k.c:461-498 | a chip that echoes the written mode byte reads back as the mode written |
| `Messages.PacketReadBack` | drivers/input/touchscreen/ektf2k.c:422-459 | a chip that echoes the written packet byte reads back as the state written, although 0x00 means on |
| `Touch.DecodeSlot` | drivers/input/touchscreen/ektf2k.c:565-580 | a decoded slot gives coordinates in [0, 4095] |
| `Touch.DecodeSlotArithmetic` | drivers/input/touchscreen/ektf2k.c:565-580 | a slot other than (0, 0, 0) decodes to a point, with x and y as given by the nibble arithmetic |
| `Touch.SlotRoundTrip` | drivers/input/touchscreen/ektf2k.c:568-577 | every raw point other than (0, 0) survives encoding then decoding; (0, 0) encodes as the empty slot and decodes as no point |
| `Touch.SlotDecodeInverse` | drivers/input/touchscreen/ektf2k.c:565-580 | a non-empty slot never decodes to (0, 0) and is exactly the encoding of the point it decodes to |
| `Touch.DecodeSlotExample` | drivers/input/touchscreen/ektf2k.c:565-580 | the slot (0x12, 0x34, 0x56) gives x = 598, y = 308 |
| `Touch.FingerCount` | drivers/input/touchscreen/ektf2k.c:589 | the finger count is the low three bits of byte 1, so it is below 8 |
| `Touch.SlotAt` | drivers/input/touchscreen/ektf2k.c:593-594 | slot i is the three bytes starting at offset 2 + 3i |
| `Touch.SlotEvents` | drivers/input/touchscreen/ektf2k.c:594-610 | an empty slot reports key 1; a touched one reports its mapped x, y, pressure 1 and a contact separator |
| `Touch.SlotsEvents` | drivers/input/touchscreen/ektf2k.c:592-612 | the events of the first n slots, slot after slot |
| `Touch.ReportEvents` | drivers/input/touchscreen/ektf2k.c:582-620 | a count of 0 reports a release and a separator, any other count all five slots; one synchronisation ends both |
| `Touch.DecodedFits` | drivers/input/touchscreen/ektf2k.c:197-198 | any decoded 12-bit coordinate times a screen maximum fits in a C int when 4095 times that maximum does |
| `Touch.ReportWithoutFingers` | drivers/input/touchscreen/ektf2k.c:613-617 | a report whose count is 0 produces exactly key 0, a contact separator and a synchronisation |
| `Touch.ReportEndsWithOneSync` | drivers/input/touchscreen/ektf2k.c:582-620 | every report ends with one synchronisation and contains no other |
| `Touch.SlotsHaveNoSync` | drivers/input/touchscreen/ektf2k.c:592-611 | the slot scan never emits a synchronisation |
| `Touch.SlotTally` | drivers/input/touchscreen/ektf2k.c:594-610 | an empty slot gives exactly key 1; a non-empty one gives four events, x position, y position, pressure 1 and a separator in that order, and no key |
| `Touch.SlotsCount` | drivers/input/touchscreen/ektf2k.c:592-611 | each of separator, pressure 1, key 1 and key 0 occurs over the first n slots as often as the touched and empty slots among them dictate |
| `Touch.SlotsLength` | drivers/input/touchscreen/ektf2k.c:592-611 | the first n slots emit four events per touched slot and one per empty slot |
| `Touch.SlotsTally` | drivers/input/touchscreen/ektf2k.c:592-611 | over the first n slots: one separator and one pressure 1 per touched slot, one key 1 per empty slot, no key 0 |
| `Touch.ReportTally` | drivers/input/touchscreen/ektf2k.c:582-620 | with a non-zero count all five slots are accounted for: contacts per touched slot, key 1 per empty slot, never a release, and the exact event count |
| `Touch.ReportIgnoresCountValue` | drivers/input/touchscreen/ektf2k.c:589-593 | once the count is non-zero its value is irrelevant: reports with the same five slots produce the same events |
| `Touch.HelloExamples` | drivers/input/touchscreen/ektf2k.c:398-416 | {0x55, 0x55, 0x55, 0x54} is not a hello; four 0x55 bytes are |
| `Touch.IsHello` | drivers/input/touchscreen/ektf2k.c:408-413 | a hello is exactly four 0x55 bytes |
| `Touch.Classify` | drivers/input/touchscreen/ektf2k.c:636-654 | byte 0 decides the message: only 0x5D is a report, 0x40 is a noise message that is noisy iff byte 1 is 0x41, and any opcode outside 0x5D, 0x40, 0x66 and 0x55 is ignored |
| `Bus.Overlay` | drivers/input/touchscreen/ektf2k.c:326-335 | a receive overwrites the start of the buffer with the delivered bytes and leaves the rest |
| `Driver.ReceivedFrame` | drivers/input/touchscreen/ektf2k.c:400-404 | a local buffer after a receive holds the delivered bytes at its start and zero after them (the C buffer is uninitialised there) |
| `Bus.I2cBus.MasterSend` | drivers/input/touchscreen/ektf2k.c:316 | a send reports the scripted count and appends the frame to the trace |
| `Bus.I2cBus.MasterRecv` | drivers/input/touchscreen/ektf2k.c:329 | a receive reports the scripted count, overlays the scripted bytes on the buffer and sends nothing |
| `Driver.Transact` | drivers/input/touchscreen/ektf2k.c:338-362 | a transaction keeps the request's length; success means both counts matched, byte 0 is 0x52, and the buffer holds the response overlaid on the request |
| `Driver.TransactFailure` | drivers/input/touchscreen/ektf2k.c:338-362 | a transaction fails iff the send count differs, the receive count differs, or byte 0 of the response is not 0x52 |
| `Driver.TransactRefusesOtherMarkers` | drivers/input/touchscreen/ektf2k.c:356-359 | a response with any marker but 0x52 is refused |
| `Driver.TransactAccepts` | drivers/input/touchscreen/ektf2k.c:338-362 | matching counts and the 0x52 marker make the transaction succeed, consuming one send and one receive |
| `Driver.StateReturn` | drivers/input/touchscreen/ektf2k.c:441-518 | a getter returns -1 iff its transaction failed, and otherwise 1 exactly when the state is on |
| `Driver.ResumeWarnsOnlyForOff` | drivers/input/touchscreen/ektf2k.c:826-834 | the `!enabled` test of resume fires exactly for an answered read-back of off, and never for a failed read-back (-1) |
| `Driver.QueryInfos` | drivers/input/touchscreen/ektf2k.c:520-559 | the firmware query accepts at most three answers; each accepted value is in range (a version that is a multiple of 16 up to 0xFFF0, dimensions up to 0xFFF) |
| `Driver.Accepted` | drivers/input/touchscreen/ektf2k.c:528-548 | a firmware query is accepted when its transaction succeeds and byte 1 echoes its command, as tested at lines 528, 538 and 548 |
| `Driver.InfoRequestsSent` | drivers/input/touchscreen/ektf2k.c:520-559 | the queries sent start with the version query, and are one more than were accepted until all three are |
| `Driver.QueryInfosComplete` | drivers/input/touchscreen/ektf2k.c:520-559 | a chip answering version, width and height correctly yields exactly those values and consumes exactly three sends and three receives |
| `Driver.QueryInfosNeedsEcho` | drivers/input/touchscreen/ektf2k.c:527-531 | a good version answer whose byte 1 does not echo 0x00 stops the sequence after the first query |
| `Driver.ProbeProceedsPastFailedHello` | drivers/input/touchscreen/ektf2k.c:692-698 | on a chip whose hello {0x55, 0x55, 0x55, 0x54} fails the check but which answers the firmware queries, the query probe makes after the hello yields all three values |
| `Driver.ProbeAfterFailedHello` | drivers/input/touchscreen/ektf2k.c:692-698 | probe on such a chip (version 0x1F0, 800 by 480) returns 0, keeps the three values and enables the interrupt |
| `Driver.Ektf2k.constructor` | drivers/input/touchscreen/ektf2k.c:671-675 | the device state starts zeroed (kzalloc), with no events and the interrupt off, for a configuration the parser accepted |
| `Driver.Ektf2k.Send` | drivers/input/touchscreen/ektf2k.c:311-322 | returns 0 iff the bus reported the whole frame sent, else -1; the frame is on the trace |
| `Driver.Ektf2k.Recv` | drivers/input/touchscreen/ektf2k.c:324-335 | returns 0 iff the bus reported the whole buffer received, else -1; the buffer holds the received bytes |
| `Driver.Ektf2k.Transcv` | drivers/input/touchscreen/ektf2k.c:338-362 | the return code, the overwritten buffer and the bus state are those of `Transact`; the request is on the trace |
| `Driver.Ektf2k.Hello` | drivers/input/touchscreen/ektf2k.c:398-416 | returns 0 iff the 4-byte receive succeeded and every byte is 0x55 |
| `Driver.Ektf2k.SetPacketState` | drivers/input/touchscreen/ektf2k.c:422-439 | sends the packet write for the requested state and returns 0 iff the send was complete |
| `Driver.Ektf2k.GetPacketState` | drivers/input/touchscreen/ektf2k.c:441-459 | sends the packet request; returns -1 on a failed transaction, otherwise 1 unless byte 2 is 0x01 |
| `Driver.Ektf2k.SetPowerState` | drivers/input/touchscreen/ektf2k.c:461-478 | sends the power write with the mode in bit 3 of byte 1 and returns 0 iff the send was complete |
| `Driver.Ektf2k.GetPowerState` | drivers/input/touchscreen/ektf2k.c:480-498 | sends the power request; returns -1 on a failed transaction, otherwise bit 3 of byte 1 |
| `Driver.Ektf2k.GetFingerState` | drivers/input/touchscreen/ektf2k.c:500-518 | sends the finger request; returns -1 on a failed transaction, otherwise 1 unless byte 2 is 0 |
| `Driver.Ektf2k.Query` | drivers/input/touchscreen/ektf2k.c:527-531 | one query is accepted iff its transaction succeeds and byte 1 echoes the command |
| `Driver.Ektf2k.GetFirmwareInfos` | drivers/input/touchscreen/ektf2k.c:520-559 | returns 0 iff all three queries were accepted; sends queries up to the first refused one; sets each field as its query is accepted and leaves later fields unchanged |
| `Driver.Ektf2k.Report` | drivers/input/touchscreen/ektf2k.c:582-620 | the events reported for a frame are exactly `ReportEvents`: all five slots at offsets 2 + 3i when the count is non-zero, then one synchronisation |
| `Driver.Ektf2k.Irq` | drivers/input/touchscreen/ektf2k.c:622-657 | a short 25-byte receive does nothing; otherwise the frame is classified by byte 0 and only a report adds its events to the input device |
| `Driver.Ektf2k.Probe` | drivers/input/touchscreen/ektf2k.c:692-698 | the hello's outcome is ignored; the result and all state follow the firmware query on the bus after the hello; the interrupt is enabled only on success |
| `Driver.Ektf2k.Suspend` | drivers/input/touchscreen/ektf2k.c:799-813 | disables the interrupt, sends packet-off then power-off, and returns 0 whatever the bus did |
| `Driver.Ektf2k.Resume` | drivers/input/touchscreen/ektf2k.c:815-839 | sends power-on, the power request, packet-on, then the packet request, re-enables the interrupt and returns 0 whatever the bus did; each warning is raised exactly when its read-back was answered with off |

## Left out

- GPIO register access (`ektf2k_ctp_gpio`, `ektf2k_ctp_irq_mux`, `ektf2k_ctp_reset`, `ektf2k_ctp_gpio_get_value`, lines 213-306): memory-mapped hardware registers whose offsets come from platform headers. Probe's calls to them (lines 680-690) are taken to succeed.
- Board configuration parsing in `ektf2k_ctp` (lines 112-190): a chain of foreign `script_parser_fetch` calls. It appears only as `CtpConfig.Valid`: both screen maxima are non-zero C ints. The flags are C ints tested for non-zero, modelled as booleans.
- Kernel wiring: input device allocation and registration, `input_set_abs_params`, `request_threaded_irq`, the early-suspend hooks, `ektf2k_remove`, `ektf2k_detect`, and module init and exit (lines 700-736, 752-797, 841-906). Foreign API calls; probe's failures after the firmware query are not modelled, and the interrupt request is the `boardIrq` parameter of `Probe`.
- Delays (`msleep`) and logging (`printk`): no observable effect in a sequential model. `Irq` returns which log branch was taken as an `Unsolicited` value, and `Resume` which of its two warnings is logged; the other messages are not modelled.
- Concurrency: the interrupt thread can race with suspend and resume, and the code has no lock. Each entry point is modelled as running to completion.
- The commented-out `ektf2k_reset` and `ektf2k_calib` (lines 368-396) and the commented-out multi-touch reports (lines 604-606): dead code.
- Uninitialised local buffers (the 4-byte hello buffer and the 25-byte interrupt buffer): they start zeroed in the model. Bytes a short receive does not deliver therefore read as zero.
- `Ctp.Normalise`: requires non-negative raw coordinates and C-int products, which the only caller guarantees through 12-bit decoding and `Scalable`. The driver checks neither, so a zero width or height or an overflowing product is outside the model.
- `Driver.Ektf2k.Report`: requires `Scalable` when a touched slot is scaled, because the driver divides by `width` and `height` without checking them. `Scalable` asks that 4095 times each screen maximum fit in a C int, which is stronger than the per-point condition: it excludes screen maxima above 524,416 even when the touches are small enough not to overflow.
- `Driver.Ektf2k.Irq`: requires the same for the frame it is about to receive (`IrqScalable`).
- `ektf2k_ctp_gpio_get_value` at the start of the interrupt handler (line 630): a GPIO read whose result is unused.
