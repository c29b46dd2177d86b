/** The solicited message catalogue: the 4-byte request and write frames the
    driver builds, and the decoders it applies to the chip's 4-byte responses. */
module Messages {
  import opened Wire

  // Request frames: [REQUEST, command, 0x00, lo].
  const PacketStateRequest: Frame := [REQUEST, PACKET_STATE, 0x00, 0x01]
  const PowerStateRequest: Frame := [REQUEST, POWER_STATE, 0x00, 0x01]
  const FingerStateRequest: Frame := [REQUEST, FINGER_STATE, 0x00, 0x01]
  const FwVerRequest: Frame := [REQUEST, FW_VER, 0x00, 0x01]
  const WidthRequest: Frame := [REQUEST, WIDTH, 0x00, 0x00]
  const HeightRequest: Frame := [REQUEST, HEIGHT, 0x00, 0x00]

  /** The queries of ektf2k_get_firmware_infos, in the order they are sent. */
  const InfoRequests: seq<Frame> := [FwVerRequest, WidthRequest, HeightRequest]

  /** ektf2k_set_packet_state: byte 2 is 0x00 to turn reporting on, 0x01 to turn it off. */
  function SetPacketStateFrame(enabled: bool): Frame {
    [WRITE, PACKET_STATE, if enabled then VAL_PKT_ON else VAL_PKT_OFF, 0x01]
  }

  /** ektf2k_set_power_state: the mode goes into bit 3 of byte 1. */
  function SetPowerStateFrame(enabled: bool): Frame {
    [WRITE, SetBit3(POWER_STATE, if enabled then VAL_PWR_NORMAL else VAL_PWR_SLEEP), 0x00, 0x01]
  }

  /** ektf2k_get_packet_state on an accepted response: reporting is on unless byte 2 says off. */
  predicate PacketStateOf(resp: Frame)
    requires |resp| >= 3
  {
    resp[2] != VAL_PKT_OFF
  }

  /** ektf2k_get_power_state on an accepted response: bit 3 of byte 1. */
  predicate PowerStateOf(resp: Frame)
    requires |resp| >= 2
  {
    Bit3(resp[1]) != VAL_PWR_SLEEP as int
  }

  /** ektf2k_get_finger_state on an accepted response: byte 2 is non-zero. */
  predicate FingerStateOf(resp: Frame)
    requires |resp| >= 3
  {
    resp[2] != VAL_FINGER_OFF
  }

  /** The version packing of ektf2k_get_firmware_infos, `(r[2] << 8) | (r[3] & 0xF0)`:
      byte 2, then the high nibble of byte 3 (the two parts share no bit, so `|` adds). */
  function FirmwareVersionOf(resp: Frame): (v: int)
    requires |resp| >= 4
    ensures 0 <= v <= 0xFFF0 && v % 16 == 0
    ensures v / 256 == resp[2] as int && v % 256 == (resp[3] as int / 16) * 16
  {
    resp[2] as int * 256 + HighBits(resp[3])
  }

  /** The width and height packing, `((r[3] & 0xF0) << 4) | r[2]`: the high nibble
      of byte 3 above byte 2, a 12-bit value. */
  function DimensionOf(resp: Frame): (d: int)
    requires |resp| >= 4
    ensures 0 <= d <= 0xFFF
    ensures d / 256 == resp[3] as int / 16 && d % 256 == resp[2] as int
  {
    HighBits(resp[3]) * 16 + resp[2] as int
  }

  /** The chip's answer to the version query for a version v (the low nibble of byte 3 is free). */
  function VersionResponse(v: int, lowNibble: int): Frame
    requires 0 <= v <= 0xFFF0 && v % 16 == 0 && 0 <= lowNibble < 16
  {
    [RESPONSE, FW_VER, (v / 256) as byte, (v % 256 + lowNibble) as byte]
  }

  /** The chip's answer to a width or height query for a 12-bit dimension d. */
  function DimensionResponse(command: byte, d: int, lowNibble: int): Frame
    requires 0 <= d <= 0xFFF && 0 <= lowNibble < 16
  {
    [RESPONSE, command, (d % 256) as byte, ((d / 256) * 16 + lowNibble) as byte]
  }

  /** Decoding the version answer recovers the version, whatever the low nibble of byte 3. */
  lemma FirmwareVersionRoundTrip(v: int, lowNibble: int)
    requires 0 <= v <= 0xFFF0 && v % 16 == 0 && 0 <= lowNibble < 16
    ensures FirmwareVersionOf(VersionResponse(v, lowNibble)) == v
  {
    var w := FirmwareVersionOf(VersionResponse(v, lowNibble));
    var k := (v % 256) / 16;
    assert v % 256 == k * 16;
    NibbleSplit(k, lowNibble);
    assert w % 256 == v % 256;
  }

  /** Decoding a dimension answer recovers the dimension, whatever the low nibble of byte 3. */
  lemma DimensionRoundTrip(command: byte, d: int, lowNibble: int)
    requires 0 <= d <= 0xFFF && 0 <= lowNibble < 16
    ensures DimensionOf(DimensionResponse(command, d, lowNibble)) == d
  {
    var e := DimensionOf(DimensionResponse(command, d, lowNibble));
    NibbleSplit(d / 256, lowNibble);
    assert e / 256 == d / 256;
    assert e % 256 == d % 256;
  }

  /** The concrete version answer {0x52, 0x00, 0x01, 0xF0} carries version 0x1F0. */
  lemma FirmwareVersionExample()
    ensures FirmwareVersionOf([RESPONSE, FW_VER, 0x01, 0xF0]) == 0x1F0
  {
  }

  /** The write frames on the wire. */
  lemma StateFramesOnWire()
    ensures SetPowerStateFrame(true) == [0x54, 0x58, 0x00, 0x01]
    ensures SetPowerStateFrame(false) == [0x54, 0x50, 0x00, 0x01]
    ensures SetPacketStateFrame(true) == [0x54, 0x8E, 0x00, 0x01]
    ensures SetPacketStateFrame(false) == [0x54, 0x8E, 0x01, 0x01]
  {
  }

  /** A chip that echoes byte 1 of the power write reads back the mode that was written. */
  lemma PowerReadBack(enabled: bool, resp: Frame)
    requires |resp| >= 2 && resp[1] == SetPowerStateFrame(enabled)[1]
    ensures PowerStateOf(resp) == enabled
  {
  }

  /** A chip that echoes byte 2 of the packet write reads back the state that was written,
      although the packet byte has the opposite polarity to the power bit. */
  lemma PacketReadBack(enabled: bool, resp: Frame)
    requires |resp| >= 3 && resp[2] == SetPacketStateFrame(enabled)[2]
    ensures PacketStateOf(resp) == enabled
    ensures (SetPacketStateFrame(enabled)[2] == 0x00) == enabled
  {
  }
}
