/** Unsolicited messages: the 25-byte touch report, its five packed finger
    slots, the input events a report turns into, and the opcode dispatch of
    the interrupt handler. */
module Touch {
  import opened Wire
  import opened Ctp

  const REPORT_LENGTH: nat := 25
  const SLOT_COUNT: nat := 5
  /** A report must reach the last byte of the last slot. */
  const SLOTS_END: nat := 2 + 3 * SLOT_COUNT

  /** The largest raw coordinate a slot can carry (12 bits). */
  const MAX_RAW: int := 0xFFF

  /** One 3-byte finger slot of a report. */
  datatype SlotBytes = SlotBytes(b0: byte, b1: byte, b2: byte)

  /** What the driver hands to the input device. */
  datatype Event =
    | Key(touch: int)          // input_report_key(BTN_TOUCH, touch)
    | AbsX(x: int)             // input_report_abs(ABS_X, x)
    | AbsY(y: int)             // input_report_abs(ABS_Y, y)
    | Pressure(pressure: int)  // input_report_abs(ABS_PRESSURE, pressure)
    | MtSync                   // input_mt_sync
    | Sync                     // input_sync

  predicate IsEmptySlot(s: SlotBytes) {
    s.b0 == 0 && s.b1 == 0 && s.b2 == 0
  }

  /** ektf2k_report_coordinates: an all-zero slot carries no point; otherwise
      x = ((b0 & 0x0F) << 8) | b2 and y = ((b0 & 0xF0) << 4) | b1 (the shifted
      nibble and the byte share no bit, so `|` adds). */
  function DecodeSlot(s: SlotBytes): (r: Option<Point>)
    ensures r.Some? ==> 0 <= r.value.x <= MAX_RAW && 0 <= r.value.y <= MAX_RAW
  {
    if s.b0 == 0 && s.b1 == 0 && s.b2 == 0 then None
    else Some(Point(LowNibble(s.b0) * 256 + s.b2 as int, HighBits(s.b0) * 16 + s.b1 as int))
  }

  /** The arithmetic reading of the bit packing. */
  lemma DecodeSlotArithmetic(s: SlotBytes)
    requires !IsEmptySlot(s)
    ensures DecodeSlot(s).Some?
    ensures DecodeSlot(s).value.x == (s.b0 as int % 16) * 256 + s.b2 as int
    ensures DecodeSlot(s).value.y == (s.b0 as int / 16) * 256 + s.b1 as int
  {
  }

  /** The slot the chip sends for a raw point. */
  function EncodeSlot(p: Point): SlotBytes
    requires 0 <= p.x <= MAX_RAW && 0 <= p.y <= MAX_RAW
  {
    SlotBytes(((p.y / 256) * 16 + p.x / 256) as byte, (p.y % 256) as byte, (p.x % 256) as byte)
  }

  /** Every raw point but the origin survives encoding and decoding; the origin
      encodes as the all-zero slot, which decodes as "no point". */
  lemma {:induction false} SlotRoundTrip(p: Point)
    requires 0 <= p.x <= MAX_RAW && 0 <= p.y <= MAX_RAW
    ensures p != Point(0, 0) ==> DecodeSlot(EncodeSlot(p)) == Some(p)
    ensures p == Point(0, 0) ==> IsEmptySlot(EncodeSlot(p)) && DecodeSlot(EncodeSlot(p)) == None
  {
    EncodeSlotFields(p);
    EncodeSlotEmpty(p);
  }

  /** Only the origin encodes as the all-zero slot. */
  lemma EncodeSlotEmpty(p: Point)
    requires 0 <= p.x <= MAX_RAW && 0 <= p.y <= MAX_RAW
    ensures IsEmptySlot(EncodeSlot(p)) <==> p == Point(0, 0)
  {
    EncodeSlotFields(p);
  }

  /** The decoder's reading of an encoded slot gives the point back. */
  lemma EncodeSlotFields(p: Point)
    requires 0 <= p.x <= MAX_RAW && 0 <= p.y <= MAX_RAW
    ensures var s := EncodeSlot(p);
      && LowNibble(s.b0) * 256 + s.b2 as int == p.x
      && HighBits(s.b0) * 16 + s.b1 as int == p.y
  {
    SplitCoordinate(p.x);
    SplitCoordinate(p.y);
    NibbleSplit(p.y / 256, p.x / 256);
  }

  /** A 12-bit coordinate is its high nibble times 256 plus its low byte. */
  lemma SplitCoordinate(v: int)
    requires 0 <= v <= MAX_RAW
    ensures 0 <= v / 256 < 16 && 0 <= v % 256 < 256
    ensures v == (v / 256) * 256 + v % 256
  {
  }

  /** Conversely, a non-empty slot is the encoding of the point it decodes to. */
  lemma {:induction false} SlotDecodeInverse(s: SlotBytes)
    requires !IsEmptySlot(s)
    ensures DecodeSlot(s).Some? && DecodeSlot(s).value != Point(0, 0)
    ensures EncodeSlot(DecodeSlot(s).value) == s
  {
    DecodeSlotArithmetic(s);
    var p := DecodeSlot(s).value;
    var hi, lo := s.b0 as int / 16, s.b0 as int % 16;
    assert p.x / 256 == lo && p.x % 256 == s.b2 as int;
    assert p.y / 256 == hi && p.y % 256 == s.b1 as int;
  }

  /** The slot (0x12, 0x34, 0x56) carries x = 0x256 = 598 and y = 0x134 = 308. */
  lemma DecodeSlotExample()
    ensures DecodeSlot(SlotBytes(0x12, 0x34, 0x56)) == Some(Point(598, 308))
  {
  }

  /** The finger count of a report: the low three bits of byte 1, `buffer[1] & 0x07`. */
  function FingerCount(frame: Frame): (n: nat)
    requires |frame| >= 2
    ensures n < 8
  {
    Low3(frame[1])
  }

  /** Slot i of a report starts at byte 2 + 3 * i. */
  function SlotAt(frame: Frame, i: nat): SlotBytes
    requires |frame| >= SLOTS_END && i < SLOT_COUNT
  {
    SlotBytes(frame[2 + 3 * i], frame[3 + 3 * i], frame[4 + 3 * i])
  }

  /** The sensor dimensions the driver divides by are positive, and every raw
      coordinate times a screen maximum fits in a C int. The driver checks neither. */
  predicate Scalable(cfg: CtpConfig, width: int, height: int) {
    cfg.Valid() && width > 0 && height > 0
    && IsInt32(MAX_RAW * cfg.screenMaxX) && IsInt32(MAX_RAW * cfg.screenMaxY)
  }

  /** A report whose slots are scanned and at least one of which carries a point:
      the only reports for which the driver scales coordinates. */
  predicate Touches(frame: Frame)
    requires |frame| >= SLOTS_END
  {
    FingerCount(frame) > 0 && exists i :: 0 <= i < SLOT_COUNT && !IsEmptySlot(SlotAt(frame, i))
  }

  lemma {:induction false} DecodedFits(cfg: CtpConfig, width: int, height: int, p: Point)
    requires Scalable(cfg, width, height)
    requires 0 <= p.x <= MAX_RAW && 0 <= p.y <= MAX_RAW
    ensures ScaleFits(cfg, p)
  {
    ProductBetween(p.x, cfg.screenMaxX);
    ProductBetween(p.y, cfg.screenMaxY);
  }

  lemma ProductBetween(v: int, s: int)
    requires 0 <= v <= MAX_RAW
    ensures 0 <= s ==> 0 <= v * s <= MAX_RAW * s
    ensures s < 0 ==> MAX_RAW * s <= v * s <= 0
  {
    if 0 <= s {
      MulMono(0, v, s);
      MulMono(v, MAX_RAW, s);
    } else {
      MulMono(0, v, -s);
      MulMono(v, MAX_RAW, -s);
    }
  }

  /** The events of one scanned slot: a touch key for an empty slot (not a release),
      otherwise the normalised position, pressure 1 and a contact separator. */
  function SlotEvents(cfg: CtpConfig, width: int, height: int, s: SlotBytes): seq<Event>
    requires !IsEmptySlot(s) ==> Scalable(cfg, width, height)
  {
    match DecodeSlot(s)
    case None => [Key(1)]
    case Some(p) =>
      DecodedFits(cfg, width, height, p);
      var q := Normalise(cfg, p, width, height);
      [AbsX(q.x), AbsY(q.y), Pressure(1), MtSync]
  }

  /** The events of the first n slots, in slot order. */
  function SlotsEvents(cfg: CtpConfig, width: int, height: int, frame: Frame, n: nat): seq<Event>
    requires |frame| >= SLOTS_END && n <= SLOT_COUNT
    requires Touches(frame) ==> Scalable(cfg, width, height)
    requires FingerCount(frame) > 0
  {
    if n == 0 then []
    else
      assert !IsEmptySlot(SlotAt(frame, n - 1)) ==> Touches(frame);
      SlotsEvents(cfg, width, height, frame, n - 1) + SlotEvents(cfg, width, height, SlotAt(frame, n - 1))
  }

  /** ektf2k_report: no fingers reports a release; otherwise all five slots are
      scanned whatever the count. Either way one synchronisation ends the report. */
  function ReportEvents(cfg: CtpConfig, width: int, height: int, frame: Frame): seq<Event>
    requires |frame| >= SLOTS_END
    requires Touches(frame) ==> Scalable(cfg, width, height)
  {
    if FingerCount(frame) == 0 then [Key(0), MtSync, Sync]
    else SlotsEvents(cfg, width, height, frame, SLOT_COUNT) + [Sync]
  }

  /** A report with no fingers is a release and nothing else. */
  lemma ReportWithoutFingers(cfg: CtpConfig, width: int, height: int, frame: Frame)
    requires |frame| >= SLOTS_END && FingerCount(frame) == 0
    ensures ReportEvents(cfg, width, height, frame) == [Key(0), MtSync, Sync]
  {
  }

  lemma {:induction false} SlotsHaveNoSync(cfg: CtpConfig, width: int, height: int, frame: Frame, n: nat)
    requires |frame| >= SLOTS_END && n <= SLOT_COUNT && FingerCount(frame) > 0
    requires Touches(frame) ==> Scalable(cfg, width, height)
    ensures Sync !in SlotsEvents(cfg, width, height, frame, n)
  {
    if n > 0 {
      SlotsHaveNoSync(cfg, width, height, frame, n - 1);
    }
  }

  /** Exactly one synchronisation ends every report. */
  lemma ReportEndsWithOneSync(cfg: CtpConfig, width: int, height: int, frame: Frame)
    requires |frame| >= SLOTS_END
    requires Touches(frame) ==> Scalable(cfg, width, height)
    ensures var ev := ReportEvents(cfg, width, height, frame);
      |ev| > 0 && ev[|ev| - 1] == Sync && Sync !in ev[..|ev| - 1]
  {
    var ev := ReportEvents(cfg, width, height, frame);
    if FingerCount(frame) > 0 {
      SlotsHaveNoSync(cfg, width, height, frame, SLOT_COUNT);
      assert ev[..|ev| - 1] == SlotsEvents(cfg, width, height, frame, SLOT_COUNT);
    }
  }

  /** The number of slots among the first n that carry a point. */
  function TouchedSlots(frame: Frame, n: nat): (k: nat)
    requires |frame| >= SLOTS_END && n <= SLOT_COUNT
    ensures k <= n
  {
    if n == 0 then 0
    else TouchedSlots(frame, n - 1) + (if IsEmptySlot(SlotAt(frame, n - 1)) then 0 else 1)
  }

  /** One slot's share of the report: the touch key alone for an empty slot;
      for a touched slot the x then y position, pressure 1 and a separator. */
  lemma SlotTally(cfg: CtpConfig, width: int, height: int, s: SlotBytes)
    requires !IsEmptySlot(s) ==> Scalable(cfg, width, height)
    ensures var ev := SlotEvents(cfg, width, height, s); var t := if IsEmptySlot(s) then 0 else 1;
      && multiset(ev)[MtSync] == t
      && multiset(ev)[Pressure(1)] == t
      && multiset(ev)[Key(1)] == 1 - t
      && multiset(ev)[Key(0)] == 0
      && |ev| == 4 * t + (1 - t)
      && (IsEmptySlot(s) ==> ev == [Key(1)])
      && (!IsEmptySlot(s) ==> ev[0].AbsX? && ev[1].AbsY? && ev[2] == Pressure(1) && ev[3] == MtSync)
  {
  }

  /** Over the first n slots: one separator and one pressure 1 per touched slot,
      one touch key per empty slot, no release. */
  lemma SlotsTally(cfg: CtpConfig, width: int, height: int, frame: Frame, n: nat)
    requires |frame| >= SLOTS_END && n <= SLOT_COUNT && FingerCount(frame) > 0
    requires Touches(frame) ==> Scalable(cfg, width, height)
    ensures var ev := SlotsEvents(cfg, width, height, frame, n);
      && multiset(ev)[MtSync] == TouchedSlots(frame, n)
      && multiset(ev)[Pressure(1)] == TouchedSlots(frame, n)
      && multiset(ev)[Key(1)] == n - TouchedSlots(frame, n)
      && multiset(ev)[Key(0)] == 0
      && |ev| == 4 * TouchedSlots(frame, n) + (n - TouchedSlots(frame, n))
  {
    SlotsCount(cfg, width, height, frame, n, MtSync);
    SlotsCount(cfg, width, height, frame, n, Pressure(1));
    SlotsCount(cfg, width, height, frame, n, Key(1));
    SlotsCount(cfg, width, height, frame, n, Key(0));
    SlotsLength(cfg, width, height, frame, n);
  }

  /** How often one of the counted events occurs in the events of one slot. */
  function SlotShare(e: Event, touched: bool): (k: nat)
    ensures k <= 1
  {
    if e == Key(1) then (if touched then 0 else 1)
    else if e == MtSync || e == Pressure(1) then (if touched then 1 else 0)
    else 0
  }

  /** How often one of the counted events occurs in the events of the first n slots. */
  function SlotsShare(e: Event, frame: Frame, n: nat): (k: nat)
    requires |frame| >= SLOTS_END && n <= SLOT_COUNT
    ensures k <= n
  {
    if e == Key(1) then n - TouchedSlots(frame, n)
    else if e == MtSync || e == Pressure(1) then TouchedSlots(frame, n)
    else 0
  }

  lemma ShareStep(e: Event, frame: Frame, n: nat)
    requires |frame| >= SLOTS_END && 0 < n <= SLOT_COUNT
    ensures SlotsShare(e, frame, n) == SlotsShare(e, frame, n - 1) + SlotShare(e, !IsEmptySlot(SlotAt(frame, n - 1)))
  {
  }

  lemma SlotCount(cfg: CtpConfig, width: int, height: int, s: SlotBytes, e: Event)
    requires !IsEmptySlot(s) ==> Scalable(cfg, width, height)
    requires e == MtSync || e == Pressure(1) || e == Key(1) || e == Key(0)
    ensures multiset(SlotEvents(cfg, width, height, s))[e] == SlotShare(e, !IsEmptySlot(s))
  {
    SlotTally(cfg, width, height, s);
  }

  lemma {:induction false} SlotsCount(cfg: CtpConfig, width: int, height: int, frame: Frame, n: nat, e: Event)
    requires |frame| >= SLOTS_END && n <= SLOT_COUNT && FingerCount(frame) > 0
    requires Touches(frame) ==> Scalable(cfg, width, height)
    requires e == MtSync || e == Pressure(1) || e == Key(1) || e == Key(0)
    ensures multiset(SlotsEvents(cfg, width, height, frame, n))[e] == SlotsShare(e, frame, n)
  {
    var ev := SlotsEvents(cfg, width, height, frame, n);
    if n == 0 {
      assert ev == [] && TouchedSlots(frame, 0) == 0;
      assert multiset(ev)[e] == 0 == SlotsShare(e, frame, 0);
    } else {
      SlotsCount(cfg, width, height, frame, n - 1, e);
      var slot := SlotAt(frame, n - 1);
      assert !IsEmptySlot(slot) ==> Touches(frame);
      SlotCount(cfg, width, height, slot, e);
      var before, last := SlotsEvents(cfg, width, height, frame, n - 1), SlotEvents(cfg, width, height, slot);
      assert ev == before + last;
      CountConcat(before, last, e);
      ShareStep(e, frame, n);
      assert multiset(ev)[e] == SlotsShare(e, frame, n - 1) + SlotShare(e, !IsEmptySlot(slot));
    }
  }

  lemma CountConcat(a: seq<Event>, b: seq<Event>, e: Event)
    ensures multiset(a + b)[e] == multiset(a)[e] + multiset(b)[e]
  {
    assert multiset(a + b) == multiset(a) + multiset(b);
  }

  lemma {:induction false} SlotsLength(cfg: CtpConfig, width: int, height: int, frame: Frame, n: nat)
    requires |frame| >= SLOTS_END && n <= SLOT_COUNT && FingerCount(frame) > 0
    requires Touches(frame) ==> Scalable(cfg, width, height)
    ensures |SlotsEvents(cfg, width, height, frame, n)| == 4 * TouchedSlots(frame, n) + (n - TouchedSlots(frame, n))
  {
    if n > 0 {
      SlotsLength(cfg, width, height, frame, n - 1);
      var slot := SlotAt(frame, n - 1);
      assert !IsEmptySlot(slot) ==> Touches(frame);
      SlotTally(cfg, width, height, slot);
    }
  }

  /** With fingers reported, every slot is accounted for: one contact (with one
      pressure and one separator) per slot that carries a point, one touch key
      per empty slot, and never a release. */
  lemma ReportTally(cfg: CtpConfig, width: int, height: int, frame: Frame)
    requires |frame| >= SLOTS_END && FingerCount(frame) > 0
    requires Touches(frame) ==> Scalable(cfg, width, height)
    ensures var ev := ReportEvents(cfg, width, height, frame);
      && multiset(ev)[MtSync] == TouchedSlots(frame, SLOT_COUNT)
      && multiset(ev)[Key(1)] == SLOT_COUNT - TouchedSlots(frame, SLOT_COUNT)
      && multiset(ev)[Key(0)] == 0
      && |ev| == 1 + 4 * TouchedSlots(frame, SLOT_COUNT) + (SLOT_COUNT - TouchedSlots(frame, SLOT_COUNT))
  {
    SlotsTally(cfg, width, height, frame, SLOT_COUNT);
  }

  lemma {:induction false} SlotsIgnoreCount(cfg: CtpConfig, width: int, height: int, f: Frame, g: Frame, n: nat)
    requires |f| >= SLOTS_END && |g| >= SLOTS_END && n <= SLOT_COUNT
    requires FingerCount(f) > 0 && FingerCount(g) > 0
    requires f[2..SLOTS_END] == g[2..SLOTS_END]
    requires Touches(f) ==> Scalable(cfg, width, height)
    requires Touches(g) ==> Scalable(cfg, width, height)
    ensures SlotsEvents(cfg, width, height, f, n) == SlotsEvents(cfg, width, height, g, n)
  {
    if n > 0 {
      SlotsIgnoreCount(cfg, width, height, f, g, n - 1);
      SameSlot(f, g, n - 1);
    }
  }

  /** Reports that agree on bytes 2..16 agree on every slot. */
  lemma SameSlot(f: Frame, g: Frame, i: nat)
    requires |f| >= SLOTS_END && |g| >= SLOTS_END && i < SLOT_COUNT
    requires f[2..SLOTS_END] == g[2..SLOTS_END]
    ensures SlotAt(f, i) == SlotAt(g, i)
  {
    assert f[2 + 3 * i] == f[2..SLOTS_END][3 * i] == g[2 + 3 * i];
    assert f[3 + 3 * i] == f[2..SLOTS_END][3 * i + 1] == g[3 + 3 * i];
    assert f[4 + 3 * i] == f[2..SLOTS_END][3 * i + 2] == g[4 + 3 * i];
  }

  /** Once the count is non-zero its value does not matter: two reports with
      the same five slots produce the same events. */
  lemma ReportIgnoresCountValue(cfg: CtpConfig, width: int, height: int, f: Frame, g: Frame)
    requires |f| >= SLOTS_END && |g| >= SLOTS_END
    requires FingerCount(f) > 0 && FingerCount(g) > 0
    requires f[2..SLOTS_END] == g[2..SLOTS_END]
    requires Touches(f) ==> Scalable(cfg, width, height)
    requires Touches(g) ==> Scalable(cfg, width, height)
    ensures ReportEvents(cfg, width, height, f) == ReportEvents(cfg, width, height, g)
  {
    SlotsIgnoreCount(cfg, width, height, f, g, SLOT_COUNT);
  }

  const HELLO_LENGTH: nat := 4

  /** ektf2k_hello's test: every byte of the frame is 0x55. */
  predicate IsHello(frame: Frame) {
    forall i :: 0 <= i < |frame| ==> frame[i] == DATA_HELLO
  }

  /** {0x55, 0x55, 0x55, 0x54} is not a hello; four 0x55 bytes are. */
  lemma HelloExamples()
    ensures !IsHello([0x55, 0x55, 0x55, 0x54])
    ensures IsHello([0x55, 0x55, 0x55, 0x55])
  {
    var bad: Frame := [0x55, 0x55, 0x55, 0x54];
    assert bad[3] != DATA_HELLO;
  }

  /** What the interrupt handler makes of a received frame (it only logs all but reports). */
  datatype Unsolicited =
    | NoFrame              // the 25-byte receive failed
    | TouchReport          // 0x5D: decoded and reported
    | Noise(noisy: bool)   // 0x40: byte 1 == 0x41 means a noisy environment
    | Calibration          // 0x66
    | HelloPacket          // 0x55
    | Ignored(opcode: byte)

  /** The switch on byte 0 in ektf2k_irq. */
  function Classify(frame: Frame): (u: Unsolicited)
    requires |frame| >= 2
    ensures u != NoFrame
    ensures u == TouchReport <==> frame[0] == REPORT
    ensures u.Noise? <==> frame[0] == NOISE
    ensures u.Noise? ==> (u.noisy <==> frame[1] == VAL_NOISY)
    ensures u.Ignored? <==> frame[0] !in {REPORT, NOISE, CALIB, DATA_HELLO}
  {
    if frame[0] == REPORT then TouchReport
    else if frame[0] == NOISE then Noise(frame[1] == VAL_NOISY)
    else if frame[0] == CALIB then Calibration
    else if frame[0] == DATA_HELLO then HelloPacket
    else Ignored(frame[0])
  }
}
