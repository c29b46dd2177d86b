/** The driver proper (struct ektf2k_data and the functions that use it): the
    byte-count checked send, receive and transaction, the solicited getters and
    setters, the firmware information query, the report and interrupt paths,
    and the frame order of probe, suspend and resume. Each entry point runs to
    completion before the next one starts. */
module Driver {
  import opened Wire
  import opened Ctp
  import opened Messages
  import opened Touch
  import opened Bus

  /** The bytes a local buffer of the given length holds after a receive of reply.
      The C buffers start uninitialised; here they start zeroed. */
  function ReceivedFrame(reply: Reply, length: nat): (f: Frame)
    ensures |f| == length
    ensures forall i :: 0 <= i < length ==> f[i] == if i < |reply.data| then reply.data[i] else 0
  {
    Overlay(seq(length, _ => 0), reply.data)
  }

  /** The outcome of ektf2k_transcv on a request: whether it succeeded, what the
      request buffer holds afterwards, and the script left on the bus. */
  datatype Exchange = Exchange(ok: bool, buffer: Frame, after: Script)

  /** ektf2k_transcv against a bus script: send the request, receive as many
      bytes over it, and accept only a response marker in byte 0. */
  function Transact(s: Script, request: Frame): (t: Exchange)
    requires |request| > 0
    ensures |t.buffer| == |request|
    ensures t.ok ==> t.buffer[0] == RESPONSE
    ensures t.ok ==> s.SendCount() == |request| && s.AfterSend().NextReply().count == |request|
    ensures t.ok ==> t.buffer == Overlay(request, s.AfterSend().NextReply().data)
  {
    if s.SendCount() != |request| then Exchange(false, request, s.AfterSend())
    else
      var reply := s.AfterSend().NextReply();
      var buffer := Overlay(request, reply.data);
      Exchange(reply.count == |request| && buffer[0] == RESPONSE, buffer, s.AfterSend().AfterRecv())
  }

  /** A response with any marker other than 0x52 is refused, whatever else is right. */
  lemma TransactRefusesOtherMarkers(s: Script, request: Frame, marker: byte)
    requires |request| > 0 && marker != RESPONSE
    requires s.AfterSend().NextReply().data != [] && s.AfterSend().NextReply().data[0] == marker
    ensures !Transact(s, request).ok
  {
  }

  /** A send of the right length, a receive of the right length and a response
      marker are enough for the transaction to succeed. */
  lemma TransactAccepts(s: Script, request: Frame)
    requires |request| > 0
    requires s.SendCount() == |request| && s.AfterSend().NextReply().count == |request|
    requires s.AfterSend().NextReply().data != [] && s.AfterSend().NextReply().data[0] == RESPONSE
    ensures Transact(s, request).ok
    ensures Transact(s, request).after == s.AfterSend().AfterRecv()
  {
  }

  /** The three ways a transaction fails, and no other: a short send, a short
      receive, or a response without the 0x52 marker. */
  lemma TransactFailure(s: Script, request: Frame)
    requires |request| > 0
    ensures var reply := s.AfterSend().NextReply();
      !Transact(s, request).ok <==>
        || s.SendCount() != |request|
        || reply.count != |request|
        || Overlay(request, reply.data)[0] != RESPONSE
  {
  }

  /** What ektf2k_get_*_state returns: -1 when the transaction failed, else 1 or 0. */
  function StateReturn(t: Exchange, on: bool): (r: int)
    ensures r == -1 <==> !t.ok
    ensures t.ok ==> (r == 1 <==> on)
  {
    if !t.ok then -1 else if on then 1 else 0
  }

  /** How far the three queries of ektf2k_get_firmware_infos got: `answered` of
      them were accepted, and the values decoded from those. */
  datatype InfoQuery = InfoQuery(answered: nat, version: int, width: int, height: int, after: Script)

  /** A query is accepted when its transaction succeeds and byte 1 echoes the command. */
  predicate Accepted(t: Exchange, command: byte)
    requires |t.buffer| >= 2
  {
    t.ok && t.buffer[1] == command
  }

  /** ektf2k_get_firmware_infos against a bus script: version, width, height, in
      that order, stopping at the first query that is not accepted. */
  function QueryInfos(s: Script): (q: InfoQuery)
    ensures q.answered <= 3
    ensures 1 <= q.answered ==> 0 <= q.version <= 0xFFF0 && q.version % 16 == 0
    ensures 2 <= q.answered ==> 0 <= q.width <= 0xFFF
    ensures 3 <= q.answered ==> 0 <= q.height <= 0xFFF
  {
    var t1 := Transact(s, FwVerRequest);
    if !Accepted(t1, FW_VER) then InfoQuery(0, 0, 0, 0, t1.after)
    else
      var version := FirmwareVersionOf(t1.buffer);
      var t2 := Transact(t1.after, WidthRequest);
      if !Accepted(t2, WIDTH) then InfoQuery(1, version, 0, 0, t2.after)
      else
        var width := DimensionOf(t2.buffer);
        var t3 := Transact(t2.after, HeightRequest);
        if !Accepted(t3, HEIGHT) then InfoQuery(2, version, width, 0, t3.after)
        else InfoQuery(3, version, width, DimensionOf(t3.buffer), t3.after)
  }

  /** The requests ektf2k_get_firmware_infos puts on the bus: one more than it
      got accepted, at most all three. */
  function InfoRequestsSent(q: InfoQuery): (r: seq<Frame>)
    requires q.answered <= 3
    ensures 1 <= |r| <= 3 && r[0] == FwVerRequest
    ensures q.answered < 3 ==> |r| == q.answered + 1
  {
    InfoRequests[..if q.answered == 3 then 3 else q.answered + 1]
  }

  /** A chip that accepts three 4-byte queries and answers them with the
      given version, width and height, and then behaves as rest. */
  function AnswersInfos(version: int, width: int, height: int, rest: Script): Script
    requires 0 <= version <= 0xFFF0 && version % 16 == 0
    requires 0 <= width <= 0xFFF && 0 <= height <= 0xFFF
  {
    Script([4, 4, 4] + rest.sendCounts,
           [Reply(4, VersionResponse(version, 0)),
            Reply(4, DimensionResponse(WIDTH, width, 0)),
            Reply(4, DimensionResponse(HEIGHT, height, 0))] + rest.replies)
  }

  /** A chip that answers all three queries correctly yields the values it sent. */
  lemma QueryInfosComplete(version: int, width: int, height: int, rest: Script)
    requires 0 <= version <= 0xFFF0 && version % 16 == 0
    requires 0 <= width <= 0xFFF && 0 <= height <= 0xFFF
    ensures QueryInfos(AnswersInfos(version, width, height, rest)) == InfoQuery(3, version, width, height, rest)
  {
    var s := AnswersInfos(version, width, height, rest);
    FirmwareVersionRoundTrip(version, 0);
    DimensionRoundTrip(WIDTH, width, 0);
    DimensionRoundTrip(HEIGHT, height, 0);
    var t1 := Transact(s, FwVerRequest);
    assert t1.buffer == VersionResponse(version, 0);
    var t2 := Transact(t1.after, WidthRequest);
    assert t2.buffer == DimensionResponse(WIDTH, width, 0);
    var t3 := Transact(t2.after, HeightRequest);
    assert t3.buffer == DimensionResponse(HEIGHT, height, 0);
    assert t3.after == rest;
  }

  /** A version answer that does not echo the FW_VER command stops the query
      before anything is decoded, however good the rest of the answer is. */
  lemma QueryInfosNeedsEcho(s: Script)
    requires var t := Transact(s, FwVerRequest); t.ok && t.buffer[1] != FW_VER
    ensures QueryInfos(s).answered == 0
    ensures InfoRequestsSent(QueryInfos(s)) == [FwVerRequest]
  {
  }

  /** A chip whose hello is wrong in its last byte and which then answers the
      three firmware queries correctly. */
  function BadHelloThenInfos(version: int, width: int, height: int, rest: Script): Script
    requires 0 <= version <= 0xFFF0 && version % 16 == 0
    requires 0 <= width <= 0xFFF && 0 <= height <= 0xFFF
  {
    var s := AnswersInfos(version, width, height, rest);
    Script(s.sendCounts, [Reply(4, [0x55, 0x55, 0x55, 0x54])] + s.replies)
  }

  /** The hello {0x55, 0x55, 0x55, 0x54} fails ektf2k_hello's test, yet the
      firmware query probe makes next, from the script left after the hello's
      receive, gets every answer: by the contract of Probe it then succeeds. */
  lemma ProbeProceedsPastFailedHello(version: int, width: int, height: int, rest: Script)
    requires 0 <= version <= 0xFFF0 && version % 16 == 0
    requires 0 <= width <= 0xFFF && 0 <= height <= 0xFFF
    ensures var s := BadHelloThenInfos(version, width, height, rest);
      && !IsHello(ReceivedFrame(s.NextReply(), HELLO_LENGTH))
      && QueryInfos(s.AfterRecv()) == InfoQuery(3, version, width, height, rest)
  {
    var s := BadHelloThenInfos(version, width, height, rest);
    HelloExamples();
    assert ReceivedFrame(s.NextReply(), HELLO_LENGTH) == [0x55, 0x55, 0x55, 0x54];
    assert s.AfterRecv() == AnswersInfos(version, width, height, rest);
    QueryInfosComplete(version, width, height, rest);
  }

  /** The resume warnings (`if (!enabled)`): a read-back of 0 raises one; a
      failed read-back returns -1, which raises none, so a warning means the
      chip answered and reported the state off. */
  lemma ResumeWarnsOnlyForOff(t: Exchange, on: bool)
    ensures StateReturn(t, on) == 0 <==> t.ok && !on
    ensures !t.ok ==> StateReturn(t, on) != 0
  {
  }

  /** The driver's per-device state. */
  class Ektf2k {
    const bus: I2cBus
    const ctp: CtpConfig
    var firmwareVersion: int
    var width: int
    var height: int
    /** Every event handed to the input device, oldest first. */
    var input: seq<Event>
    /** Whether the interrupt is enabled. */
    var irqEnabled: bool

    /** The allocation in ektf2k_probe (kzalloc), for a configuration the board parser accepted. */
    constructor (bus: I2cBus, ctp: CtpConfig)
      requires ctp.Valid()
      ensures this.bus == bus && this.ctp == ctp
      ensures firmwareVersion == 0 && width == 0 && height == 0
      ensures input == [] && !irqEnabled
    {
      this.bus := bus;
      this.ctp := ctp;
      firmwareVersion, width, height := 0, 0, 0;
      input := [];
      irqEnabled := false;
    }

    /** ektf2k_send */
    method Send(buffer: Frame) returns (rc: int)
      modifies bus
      ensures rc == (if old(bus.script.SendCount()) == |buffer| then 0 else -1)
      ensures bus.sent == old(bus.sent) + [buffer]
      ensures bus.script == old(bus.script.AfterSend())
    {
      var n := bus.MasterSend(buffer);
      if n != |buffer| {
        return -1;
      }
      return 0;
    }

    /** ektf2k_recv */
    method Recv(buffer: array<byte>) returns (rc: int)
      modifies bus, buffer
      ensures rc == (if old(bus.script.NextReply().count) == buffer.Length then 0 else -1)
      ensures buffer[..] == Overlay(old(buffer[..]), old(bus.script.NextReply().data))
      ensures bus.sent == old(bus.sent)
      ensures bus.script == old(bus.script.AfterRecv())
    {
      var n := bus.MasterRecv(buffer);
      if n != buffer.Length {
        return -1;
      }
      return 0;
    }

    /** ektf2k_transcv: the response overwrites the request buffer. */
    method Transcv(buffer: array<byte>) returns (rc: int)
      requires buffer.Length > 0
      modifies bus, buffer
      ensures var t := Transact(old(bus.script), old(buffer[..]));
        && rc == (if t.ok then 0 else -1)
        && buffer[..] == t.buffer
        && bus.script == t.after
      ensures bus.sent == old(bus.sent) + [old(buffer[..])]
    {
      var n := bus.MasterSend(buffer[..]);
      if n != buffer.Length {
        return -1;
      }
      n := bus.MasterRecv(buffer);
      if n != buffer.Length {
        return -1;
      }
      if buffer[0] != RESPONSE {
        return -1;
      }
      return 0;
    }

    /** ektf2k_hello: receive four bytes and require each to be 0x55. */
    method Hello() returns (rc: int)
      modifies bus
      ensures var reply := old(bus.script.NextReply());
        rc == (if reply.count == HELLO_LENGTH && IsHello(ReceivedFrame(reply, HELLO_LENGTH)) then 0 else -1)
      ensures bus.sent == old(bus.sent)
      ensures bus.script == old(bus.script.AfterRecv())
    {
      var buffer := new byte[HELLO_LENGTH](_ => 0);
      assert buffer[..] == seq(HELLO_LENGTH, _ => 0);
      rc := Recv(buffer);
      if rc < 0 {
        return -1;
      }
      ghost var frame := ReceivedFrame(old(bus.script.NextReply()), HELLO_LENGTH);
      assert buffer[..] == frame;
      var i := 0;
      while i < buffer.Length
        invariant 0 <= i <= buffer.Length
        invariant forall k :: 0 <= k < i ==> buffer[k] == DATA_HELLO
      {
        if buffer[i] != DATA_HELLO {
          assert frame[i] != DATA_HELLO;
          return -1;
        }
        i := i + 1;
      }
      assert IsHello(frame);
      return 0;
    }

    /** ektf2k_set_packet_state */
    method SetPacketState(enabled: bool) returns (rc: int)
      modifies bus
      ensures rc == (if old(bus.script.SendCount()) == 4 then 0 else -1)
      ensures bus.sent == old(bus.sent) + [SetPacketStateFrame(enabled)]
      ensures bus.script == old(bus.script.AfterSend())
    {
      var buffer := new byte[] [WRITE, PACKET_STATE, 0x00, 0x01];
      if enabled {
        buffer[2] := VAL_PKT_ON;
      } else {
        buffer[2] := VAL_PKT_OFF;
      }
      assert buffer[..] == SetPacketStateFrame(enabled);
      rc := Send(buffer[..]);
      if rc < 0 {
        return -1;
      }
      return 0;
    }

    /** ektf2k_get_packet_state */
    method GetPacketState() returns (state: int)
      modifies bus
      ensures var t := Transact(old(bus.script), PacketStateRequest);
        && state == StateReturn(t, PacketStateOf(t.buffer))
        && bus.script == t.after
      ensures bus.sent == old(bus.sent) + [PacketStateRequest]
    {
      var buffer := new byte[] [REQUEST, PACKET_STATE, 0x00, 0x01];
      assert buffer[..] == PacketStateRequest;
      var rc := Transcv(buffer);
      if rc < 0 {
        return -1;
      }
      if buffer[2] == VAL_PKT_OFF {
        return 0;
      }
      return 1;
    }

    /** ektf2k_set_power_state */
    method SetPowerState(enabled: bool) returns (rc: int)
      modifies bus
      ensures rc == (if old(bus.script.SendCount()) == 4 then 0 else -1)
      ensures bus.sent == old(bus.sent) + [SetPowerStateFrame(enabled)]
      ensures bus.script == old(bus.script.AfterSend())
    {
      var buffer := new byte[] [WRITE, POWER_STATE, 0x00, 0x01];
      if enabled {
        buffer[1] := SetBit3(buffer[1], VAL_PWR_NORMAL);
      } else {
        buffer[1] := SetBit3(buffer[1], VAL_PWR_SLEEP);
      }
      assert buffer[..] == SetPowerStateFrame(enabled);
      rc := Send(buffer[..]);
      if rc < 0 {
        return -1;
      }
      return 0;
    }

    /** ektf2k_get_power_state */
    method GetPowerState() returns (state: int)
      modifies bus
      ensures var t := Transact(old(bus.script), PowerStateRequest);
        && state == StateReturn(t, PowerStateOf(t.buffer))
        && bus.script == t.after
      ensures bus.sent == old(bus.sent) + [PowerStateRequest]
    {
      var buffer := new byte[] [REQUEST, POWER_STATE, 0x00, 0x01];
      assert buffer[..] == PowerStateRequest;
      var rc := Transcv(buffer);
      if rc < 0 {
        return -1;
      }
      if Bit3(buffer[1]) == VAL_PWR_SLEEP as int {
        return 0;
      }
      return 1;
    }

    /** ektf2k_get_finger_state */
    method GetFingerState() returns (state: int)
      modifies bus
      ensures var t := Transact(old(bus.script), FingerStateRequest);
        && state == StateReturn(t, FingerStateOf(t.buffer))
        && bus.script == t.after
      ensures bus.sent == old(bus.sent) + [FingerStateRequest]
    {
      var buffer := new byte[] [REQUEST, FINGER_STATE, 0x00, 0x01];
      assert buffer[..] == FingerStateRequest;
      var rc := Transcv(buffer);
      if rc < 0 {
        return -1;
      }
      if buffer[2] == VAL_FINGER_OFF {
        return 0;
      }
      return 1;
    }

    /** One query of ektf2k_get_firmware_infos: a transaction whose response
        must echo the command in byte 1. */
    method Query(request: Frame, command: byte) returns (accepted: bool, response: Frame)
      requires |request| == 4
      modifies bus
      ensures var t := Transact(old(bus.script), request);
        && accepted == Accepted(t, command)
        && response == t.buffer
        && bus.script == t.after
      ensures bus.sent == old(bus.sent) + [request]
    {
      var buffer := new byte[4](i requires 0 <= i < 4 => request[i]);
      assert buffer[..] == request;
      var r := Transcv(buffer);
      accepted := r == 0 && buffer[1] == command;
      response := buffer[..];
    }

    /** ektf2k_get_firmware_infos: each field is set as soon as its query is
        accepted; the first refused query ends the sequence. */
    method GetFirmwareInfos() returns (rc: int)
      modifies this`firmwareVersion, this`width, this`height, bus
      ensures var q := QueryInfos(old(bus.script));
        && rc == (if q.answered == 3 then 0 else -1)
        && bus.sent == old(bus.sent) + InfoRequestsSent(q)
        && bus.script == q.after
        && firmwareVersion == (if 1 <= q.answered then q.version else old(firmwareVersion))
        && width == (if 2 <= q.answered then q.width else old(width))
        && height == (if 3 <= q.answered then q.height else old(height))
    {
      assert InfoRequests[..1] == [FwVerRequest];
      assert InfoRequests[..2] == [FwVerRequest, WidthRequest];
      assert InfoRequests[..3] == InfoRequests;
      var accepted, response := Query(FwVerRequest, FW_VER);
      if !accepted {
        return -1;
      }
      firmwareVersion := FirmwareVersionOf(response);
      accepted, response := Query(WidthRequest, WIDTH);
      if !accepted {
        return -1;
      }
      width := DimensionOf(response);
      accepted, response := Query(HeightRequest, HEIGHT);
      if !accepted {
        return -1;
      }
      height := DimensionOf(response);
      return 0;
    }

    /** ektf2k_report: the events of one touch report, in the order the driver
        reports them to the input device. */
    method Report(buffer: array<byte>) returns (events: seq<Event>)
      requires buffer.Length >= SLOTS_END
      requires Touches(buffer[..]) ==> Scalable(ctp, width, height)
      ensures events == ReportEvents(ctp, width, height, buffer[..])
    {
      var count := Low3(buffer[1]);
      events := [];
      if count > 0 {
        for i := 0 to SLOT_COUNT
          invariant events == SlotsEvents(ctp, width, height, buffer[..], i)
        {
          var index := 2 + i * 3;
          var slot := SlotBytes(buffer[index], buffer[index + 1], buffer[index + 2]);
          assert slot == SlotAt(buffer[..], i);
          assert !IsEmptySlot(slot) ==> Touches(buffer[..]);
          match DecodeSlot(slot)
          case None =>
            events := events + [Key(1)];
          case Some(p) =>
            DecodedFits(ctp, width, height, p);
            var q := Normalise(ctp, p, width, height);
            events := events + [AbsX(q.x), AbsY(q.y), Pressure(1), MtSync];
        }
      } else {
        events := events + [Key(0), MtSync];
      }
      events := events + [Sync];
    }

    /** The interrupt thread can only report when the widths it divides by are
        usable, which matters only for a received report with a touched slot. */
    predicate IrqScalable()
      reads this, bus
    {
      var reply := bus.script.NextReply();
      var frame := ReceivedFrame(reply, REPORT_LENGTH);
      reply.count == REPORT_LENGTH && frame[0] == REPORT && Touches(frame) ==> Scalable(ctp, width, height)
    }

    /** ektf2k_irq: receive one 25-byte frame and dispatch on byte 0; only a
        report reaches the input device. The value returned names what the
        driver logged. */
    method Irq() returns (msg: Unsolicited)
      requires IrqScalable()
      modifies this`input, bus
      ensures var reply := old(bus.script.NextReply());
        var frame := ReceivedFrame(reply, REPORT_LENGTH);
        && msg == (if reply.count != REPORT_LENGTH then NoFrame else Classify(frame))
        && input == old(input) + (if msg == TouchReport then ReportEvents(ctp, width, height, frame) else [])
      ensures bus.sent == old(bus.sent)
      ensures bus.script == old(bus.script.AfterRecv())
    {
      var buffer := new byte[REPORT_LENGTH](_ => 0);
      assert buffer[..] == seq(REPORT_LENGTH, _ => 0);
      var rc := Recv(buffer);
      if rc < 0 {
        return NoFrame;
      }
      if buffer[0] == REPORT {
        var events := Report(buffer);
        input := input + events;
        msg := TouchReport;
      } else if buffer[0] == NOISE {
        msg := Noise(buffer[1] == VAL_NOISY);
      } else if buffer[0] == CALIB {
        msg := Calibration;
      } else if buffer[0] == DATA_HELLO {
        msg := HelloPacket;
      } else {
        msg := Ignored(buffer[0]);
      }
    }

    /** The protocol part of ektf2k_probe: the hello's verdict is ignored, a
        refused firmware query aborts the probe, and on success the interrupt
        is requested when the board configuration names one (boardIrq). */
    method Probe(boardIrq: bool) returns (rc: int)
      modifies this`firmwareVersion, this`width, this`height, this`irqEnabled, bus
      ensures var q := QueryInfos(old(bus.script.AfterRecv()));
        && rc == (if q.answered == 3 then 0 else -1)
        && bus.sent == old(bus.sent) + InfoRequestsSent(q)
        && bus.script == q.after
        && firmwareVersion == (if 1 <= q.answered then q.version else old(firmwareVersion))
        && width == (if 2 <= q.answered then q.width else old(width))
        && height == (if 3 <= q.answered then q.height else old(height))
      ensures irqEnabled == if rc == 0 then boardIrq else old(irqEnabled)
    {
      var hello := Hello();
      rc := GetFirmwareInfos();
      if rc < 0 {
        return -1;
      }
      irqEnabled := boardIrq;
      return 0;
    }

    /** ektf2k_suspend: interrupt off, reporting off, then sleep; bus results are ignored. */
    method Suspend() returns (rc: int)
      modifies this`irqEnabled, bus
      ensures rc == 0 && !irqEnabled
      ensures bus.sent == old(bus.sent) + [SetPacketStateFrame(false), SetPowerStateFrame(false)]
      ensures bus.script == old(bus.script.AfterSend().AfterSend())
    {
      irqEnabled := false;
      var packet := SetPacketState(false);
      var power := SetPowerState(false);
      return 0;
    }

    /** ektf2k_resume: wake up and read the power state back, turn reporting on
        and read it back, then re-enable the interrupt; the read-backs are only
        logged, and the two warnings say which of them logged a failure. */
    method Resume() returns (rc: int, powerWarning: bool, packetWarning: bool)
      modifies this`irqEnabled, bus
      ensures rc == 0 && irqEnabled
      ensures bus.sent == old(bus.sent)
        + [SetPowerStateFrame(true), PowerStateRequest, SetPacketStateFrame(true), PacketStateRequest]
      ensures var power := Transact(old(bus.script.AfterSend()), PowerStateRequest);
        var packet := Transact(power.after.AfterSend(), PacketStateRequest);
        && bus.script == packet.after
        && (powerWarning <==> power.ok && !PowerStateOf(power.buffer))
        && (packetWarning <==> packet.ok && !PacketStateOf(packet.buffer))
    {
      var r := SetPowerState(true);
      var enabled := GetPowerState();
      powerWarning := enabled == 0;
      r := SetPacketState(true);
      enabled := GetPacketState();
      packetWarning := enabled == 0;
      irqEnabled := true;
      rc := 0;
    }
  }

  /** Probe on a fresh device whose chip fails the hello in its last byte and
      then answers version 0x1F0, width 800 and height 480: probe carries on,
      succeeds, keeps the three values and enables the interrupt. */
  method ProbeAfterFailedHello() returns (rc: int, version: int, width: int, height: int, irq: bool)
    ensures rc == 0 && version == 0x1F0 && width == 800 && height == 480 && irq
  {
    ProbeProceedsPastFailedHello(0x1F0, 800, 480, Script([], []));
    var bus := new I2cBus(BadHelloThenInfos(0x1F0, 800, 480, Script([], [])));
    var device := new Ektf2k(bus, CtpConfig(800, 480, false, false, false));
    rc := device.Probe(true);
    version, width, height, irq := device.firmwareVersion, device.width, device.height, device.irqEnabled;
  }
}
