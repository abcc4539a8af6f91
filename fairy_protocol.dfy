/** The Hello Fairy frame codec (`ProtocolFairy` in src/led_ble/protocol.py).
    Every frame it builds is `AA op len payload…` followed by one checksum
    byte, the sum of all preceding bytes modulo 256. Values that Python's
    `bytearray` cannot hold (outside 0..255) raise `ValueError`; here they give
    `Err(ByteOutOfRange(v))`. */
module FairyProtocol {
  import opened Wrappers
  import opened Bytes

  type Frame = seq<Byte>

  /** `construct_message`, on values: the frame body followed by its
      checksum. */
  function ConstructMessage(raw: seq<Byte>): (r: Frame)
    ensures |r| == |raw| + 1 && r[..|raw|] == raw
    ensures r[|raw|] == Sum(raw) % 256
  {
    raw + [Sum(raw) % 256]
  }

  /** A Python `bytearray`: a byte buffer that grows in place. */
  class ByteBuffer {
    var bytes: seq<Byte>

    constructor (init: seq<Byte>)
      ensures bytes == init
    {
      bytes := init;
    }
  }

  /** `construct_message` as the source runs it: the checksum is appended to
      the caller's buffer, which is also what is returned. */
  method ConstructMessageInPlace(raw: ByteBuffer) returns (r: ByteBuffer)
    modifies raw
    ensures r == raw && raw.bytes == ConstructMessage(old(raw.bytes))
  {
    raw.bytes := raw.bytes + [Sum(raw.bytes) % 256];
    r := raw;
  }

  /** The receiving side of the framing rule: check the trailing checksum and
      strip it. */
  function Unframe(f: Frame): (r: Option<seq<Byte>>)
    ensures r.Some? ==> |f| >= 1 && r.value == f[..|f| - 1]
  {
    if |f| >= 1 && f[|f| - 1] == Sum(f[..|f| - 1]) % 256 then Some(f[..|f| - 1]) else None
  }

  /** A frame whose last byte is the sum of the others modulo 256. */
  predicate WellFramed(f: Frame)
  {
    Unframe(f).Some?
  }

  /** Framing and unframing are inverse: a frame checks out exactly when it is
      some body followed by that body's checksum, and then the body is
      recovered. */
  lemma FramingRoundTrip(raw: seq<Byte>, f: Frame)
    ensures Unframe(ConstructMessage(raw)) == Some(raw)
    ensures Unframe(f) == Some(raw) <==> f == ConstructMessage(raw)
  {
  }

  /** `construct_state_query`. */
  function ConstructStateQuery(): (r: Frame)
    ensures r == [0xAA, 0x01, 0x00, 0xAB]
  {
    SumUpToFour([0xAA, 0x01, 0x00]);
    ConstructMessage([0xAA, 0x01, 0x00])
  }

  /** `1 if flag else 0`. */
  function FlagByte(flag: bool): (r: Byte)
  {
    if flag then 1 else 0
  }

  /** The five-byte frame `AA op 01 flag csum` shared by the state-change, pause
      and IR-state requests. */
  function FlagFrame(op: Byte, flag: bool): (r: Frame)
    requires op < 0x50
    ensures |r| == 5 && r[..4] == [0xAA, op, 0x01, FlagByte(flag)]
    ensures r[4] == 0xAB + op + FlagByte(flag)
    ensures WellFramed(r)
  {
    FramingRoundTrip([0xAA, op, 0x01, FlagByte(flag)], ConstructMessage([0xAA, op, 0x01, FlagByte(flag)]));
    SumUpToFour([0xAA, op, 0x01, FlagByte(flag)]);
    ConstructMessage([0xAA, op, 0x01, FlagByte(flag)])
  }

  /** `construct_state_change`: `AA 02 01 f csum`, f = 1 to turn on. */
  function ConstructStateChange(turnOn: bool): (r: Frame)
    ensures r == if turnOn then [0xAA, 0x02, 0x01, 0x01, 0xAE] else [0xAA, 0x02, 0x01, 0x00, 0xAD]
  {
    FlagFrame(0x02, turnOn)
  }

  /** `construct_pause`: `AA 11 01 f csum`. */
  function ConstructPause(pause: bool): (r: Frame)
    ensures r == if pause then [0xAA, 0x11, 0x01, 0x01, 0xBD] else [0xAA, 0x11, 0x01, 0x00, 0xBC]
  {
    FlagFrame(0x11, pause)
  }

  /** `construct_ir_state`: `AA 0F 01 f csum`. */
  function ConstructIrState(turnOn: bool): (r: Frame)
    ensures r == if turnOn then [0xAA, 0x0F, 0x01, 0x01, 0xBB] else [0xAA, 0x0F, 0x01, 0x00, 0xBA]
  {
    FlagFrame(0x0F, turnOn)
  }

  /** `construct_levels_change`, from the already scaled hue (`floor(h * 360)`),
      saturation and value (`round(s * 1000)`, `round(v * 1000)`); the colour
      space conversion that produces them is not part of this model. The hue
      is capped at 359. Each value is written as `x >> 8, x & 0xFF`; the high
      byte is not masked, so a value outside 0..65535 is not a byte and Python
      raises for the first such entry. */
  function ConstructLevelsChange(hueTimes360: int, saturation: int, value: int): (r: Result<seq<Frame>, ByteError>)
    ensures r.Ok? <==> 0 <= hueTimes360 && 0 <= saturation < 0x1_0000 && 0 <= value < 0x1_0000
    ensures r.Ok? ==>
      |r.value| == 1 && |r.value[0]| == 11 && WellFramed(r.value[0]) &&
      r.value[0][..4] == [0xAA, 0x03, 0x07, 0x01] &&
      r.value[0][4] as int * 256 + r.value[0][5] as int == (if hueTimes360 < 359 then hueTimes360 else 359) &&
      r.value[0][6] as int * 256 + r.value[0][7] as int == saturation &&
      r.value[0][8] as int * 256 + r.value[0][9] as int == value
    ensures hueTimes360 < 0 ==> r == Err(ByteOutOfRange(ShiftRight8(hueTimes360)))
    ensures 0 <= hueTimes360 && !(0 <= saturation < 0x1_0000) ==> r == Err(ByteOutOfRange(ShiftRight8(saturation)))
  {
    var hScaled := if hueTimes360 < 359 then hueTimes360 else 359;
    if !IsByte(ShiftRight8(hScaled)) then Err(ByteOutOfRange(ShiftRight8(hScaled)))
    else if !IsByte(ShiftRight8(saturation)) then Err(ByteOutOfRange(ShiftRight8(saturation)))
    else if !IsByte(ShiftRight8(value)) then Err(ByteOutOfRange(ShiftRight8(value)))
    else
      var raw := [0xAA, 0x03, 0x07, 0x01] + BigEndian16(hScaled) + BigEndian16(saturation) + BigEndian16(value);
      FramingRoundTrip(raw, ConstructMessage(raw));
      Ok([ConstructMessage(raw)])
  }

  /** `construct_preset_pattern`: a pattern frame `AA 03 04 02 p bh bl csum`
      and a speed frame `AA 0C 01 min(speed, 100) csum`. A negative speed is not
      a byte, so Python raises. */
  function ConstructPresetPattern(pattern: int, speed: int, brightness: int): (r: Result<seq<Frame>, ByteError>)
    ensures r.Ok? <==> speed >= 0
    ensures r.Ok? ==>
      |r.value| == 2 && |r.value[0]| == 8 && |r.value[1]| == 5 &&
      WellFramed(r.value[0]) && WellFramed(r.value[1]) &&
      r.value[0][..4] == [0xAA, 0x03, 0x04, 0x02] &&
      r.value[0][4] == LowByte(pattern) &&
      r.value[0][5..7] == BigEndian16(brightness) &&
      r.value[1][..3] == [0xAA, 0x0C, 0x01] &&
      r.value[1][3] as int == (if speed < 100 then speed else 100)
    ensures r.Err? ==> r.error == ByteOutOfRange(speed)
  {
    var clamped := if speed < 100 then speed else 100;
    if !IsByte(clamped) then Err(ByteOutOfRange(clamped))
    else
      var first := [0xAA, 0x03, 0x04, 0x02, LowByte(pattern)] + BigEndian16(brightness);
      var second := [0xAA, 0x0C, 0x01, clamped];
      FramingRoundTrip(first, ConstructMessage(first));
      FramingRoundTrip(second, ConstructMessage(second));
      Ok([ConstructMessage(first), ConstructMessage(second)])
  }

  /** `construct_motion`: one frame `AA D0 04 t 64 speed 01 csum`. */
  function ConstructMotion(speed: int, transition: int): (r: Result<seq<Frame>, ByteError>)
    ensures r.Ok? <==> IsByte(speed) && IsByte(transition)
    ensures r.Ok? ==>
      |r.value| == 1 && |r.value[0]| == 8 && WellFramed(r.value[0]) &&
      r.value[0][..7] == [0xAA, 0xD0, 0x04, transition, 0x64, speed, 0x01]
  {
    if !IsByte(transition) then Err(ByteOutOfRange(transition))
    else if !IsByte(speed) then Err(ByteOutOfRange(speed))
    else
      var raw := [0xAA, 0xD0, 0x04, transition, 0x64, speed, 0x01];
      FramingRoundTrip(raw, ConstructMessage(raw));
      Ok([ConstructMessage(raw)])
  }

  /** Entry `i` of a custom-effect hue message: `[i >> 8, i & 0xFF, hue]`. */
  function HueEntry(i: nat, hue: Byte): (r: seq<Byte>)
  {
    [LowByte(ShiftRight8(i)), LowByte(i), hue]
  }

  /** The layout of a custom-effect hue message body for the given hue bytes:
      header `AA DA (3n+1) 01`, then entry i at offsets 4+3i..6+3i. */
  ghost predicate HueMessageLayout(body: seq<Byte>, hues: seq<Byte>)
  {
    && |body| == 3 * |hues| + 4
    && body[..4] == [0xAA, 0xDA, 3 * |hues| + 1, 0x01]
    && forall i :: 0 <= i < |hues| ==> body[4 + 3 * i .. 7 + 3 * i] == HueEntry(i, hues[i])
  }

  /** The loop of `construct_custom_effect`: entry i, `[i >> 8, i & 0xFF,
      hue]`, goes to offsets 4+3i..6+3i; the four header bytes are left alone. */
  method FillHueEntries(hueMessage: array<Byte>, hues: seq<Byte>)
    requires hueMessage.Length == 3 * |hues| + 4
    modifies hueMessage
    ensures hueMessage[..4] == old(hueMessage[..4])
    ensures forall j :: 0 <= j < |hues| ==> hueMessage[4 + 3 * j .. 7 + 3 * j] == HueEntry(j, hues[j])
  {
    for i := 0 to |hues|
      invariant hueMessage[..4] == old(hueMessage[..4])
      invariant forall j :: 0 <= j < i ==> hueMessage[4 + 3 * j .. 7 + 3 * j] == HueEntry(j, hues[j])
    {
      var a := i * 3 + 4;
      hueMessage[a], hueMessage[a + 1], hueMessage[a + 2] := LowByte(ShiftRight8(i)), LowByte(i), hues[i];
      assert hueMessage[a .. a + 3] == HueEntry(i, hues[i]);
    }
  }

  /** `construct_custom_effect`, from the hue byte already chosen for each
      colour (0xFE for dark, 0xFF for unsaturated, `floor(h * 0xAF)` otherwise;
      that choice is not part of this model). Fills a zeroed buffer of 3n+4
      bytes, then returns the opening motion frame, the hue message and the
      closing motion frame. */
  method ConstructCustomEffect(hues: seq<Byte>, speed: int) returns (r: Result<seq<Frame>, ByteError>)
    ensures r.Ok? <==> 3 * |hues| + 1 <= 255 && IsByte(speed)
    ensures 3 * |hues| + 1 > 255 ==> r == Err(ByteOutOfRange(3 * |hues| + 1))
    ensures r.Ok? ==>
      |r.value| == 3 &&
      [r.value[0]] == ConstructMotion(speed, 0).value &&
      [r.value[2]] == ConstructMotion(speed, 2).value &&
      |r.value[1]| == 3 * |hues| + 5 && WellFramed(r.value[1]) &&
      HueMessageLayout(r.value[1][..3 * |hues| + 4], hues)
  {
    var dataBytes := |hues| * 3 + 1;
    var hueMessage := new Byte[dataBytes + 3];
    if dataBytes > 255 {
      return Err(ByteOutOfRange(dataBytes));
    }
    hueMessage[0], hueMessage[1], hueMessage[2], hueMessage[3] := 0xAA, 0xDA, dataBytes, 0x01;
    FillHueEntries(hueMessage, hues);
    var opening := ConstructMotion(speed, 0);
    if opening.Err? {
      return Err(opening.error);
    }
    var closing := ConstructMotion(speed, 2);
    var body := hueMessage[..];
    FramingRoundTrip(body, ConstructMessage(body));
    assert ConstructMessage(body)[..3 * |hues| + 4] == body;
    r := Ok(opening.value + [ConstructMessage(body)] + closing.value);
  }
}
