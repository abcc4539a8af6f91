/** The session engine of src/led_ble/led_ble.py: class `LEDBLE`, which holds
    the last known device state, the registered state callbacks, the link and
    its resolved read/write characteristics, and the protocol resolved from
    the first status notification.

    The transport is abstract: a link is a `Client` handle, the characteristics
    are named by UUID, every GATT write, notification stop and disconnect is
    appended to the `wire` log, and a failing write is described up front by a
    `Fault` argument. Calling a callback appends a `Delivery` to `delivered`.
    The flux_led protocol classes, its preset-pattern table and the
    floating-point colour maths are functions the session is constructed
    with. */
module LedBleSession {
  import opened Wrappers
  import opened Bytes
  import opened ModelDb
  import opened DreamEffects

  // ---------------------------------------------------------------------
  // Constants (src/led_ble/const.py)

  /** A 16-bit UUID expanded over the Bluetooth Base UUID. */
  function BaseUuid(part: string): (uuid: string)
    ensures |uuid| == |part| + 32 && uuid[..4] == "0000" && uuid[4 + |part|..] == "-0000-1000-8000-00805f9b34fb"
  {
    "0000" + part + "-0000-1000-8000-00805f9b34fb"
  }

  /** Write characteristic candidates, most preferred first. */
  const POSSIBLE_WRITE_CHARACTERISTIC_UUIDS: seq<string> :=
    [BaseUuid("ff01"), BaseUuid("ffd5"), BaseUuid("ffd9"), BaseUuid("ffe5"), BaseUuid("ffe9")]

  /** Read (notify) characteristic candidates, most preferred first. */
  const POSSIBLE_READ_CHARACTERISTIC_UUIDS: seq<string> :=
    [BaseUuid("ff02"), BaseUuid("ffd0"), BaseUuid("ffd4"), BaseUuid("ffe0"), BaseUuid("ffe4")]

  /** The status query `_resolve_protocol` sends before any protocol is known. */
  const STATE_COMMAND: seq<Byte> := [0xEF, 0x01, 0x77]

  /** The power byte value that means "on" in a status frame. */
  const POWER_ON: Byte := 0x23

  // ---------------------------------------------------------------------
  // Device state (src/led_ble/models.py)

  type Rgb = (int, int, int)

  /** `LEDBLEState`, an immutable record replaced wholesale on every update. */
  datatype LedBleState = LedBleState(
    power: bool,
    rgb: Rgb,
    w: int,
    modelNum: int,
    presetPattern: int,
    mode: int,
    speed: int,
    versionNum: int)

  const INITIAL_STATE: LedBleState := LedBleState(false, (0, 0, 0), 0, 0, 0, 0, 0, 0)

  /** A state every field of which a status frame can carry. */
  predicate ByteState(s: LedBleState)
  {
    IsByte(s.rgb.0) && IsByte(s.rgb.1) && IsByte(s.rgb.2) && IsByte(s.w) &&
    IsByte(s.modelNum) && IsByte(s.presetPattern) && IsByte(s.mode) &&
    IsByte(s.speed) && IsByte(s.versionNum)
  }

  /** The state a full status frame (11 bytes or more) carries, read at fixed
      offsets: byte 1 model, byte 2 power (0x23 is on), 3 preset pattern,
      4 mode, 5 speed, 6..8 red, green, blue, 9 white, 10 version. */
  function DecodeStatus(data: seq<Byte>): (s: LedBleState)
    requires |data| >= 11
    ensures ByteState(s)
  {
    LedBleState(data[2] == POWER_ON, (data[6], data[7], data[8]), data[9],
                data[1], data[3], data[4], data[5], data[10])
  }

  /** A status frame a device could send for `s`: any first byte, 0x24 for
      "off", and any trailing bytes. */
  function StatusFrame(s: LedBleState, head: Byte, tail: seq<Byte>): (f: seq<Byte>)
    requires ByteState(s)
    ensures |f| == 11 + |tail|
  {
    [head, s.modelNum, if s.power then POWER_ON else 0x24, s.presetPattern, s.mode, s.speed,
     s.rgb.0, s.rgb.1, s.rgb.2, s.w, s.versionNum] + tail
  }

  /** Decoding reads back every field of a status frame, whatever its first
      byte and whatever follows byte 10. */
  lemma DecodeStatusRoundTrip(s: LedBleState, head: Byte, tail: seq<Byte>)
    requires ByteState(s)
    ensures DecodeStatus(StatusFrame(s, head, tail)) == s
  {
  }

  /** Only bytes 1..10 of a status frame matter. */
  lemma DecodeStatusIgnoresOuterBytes(a: seq<Byte>, b: seq<Byte>)
    requires |a| >= 11 && |b| >= 11 && a[1..11] == b[1..11]
    ensures DecodeStatus(a) == DecodeStatus(b)
  {
    assert forall k :: 1 <= k < 11 ==> a[k] == a[1..11][k - 1] && b[k] == b[1..11][k - 1];
  }

  // ---------------------------------------------------------------------
  // Commands, errors and the abstract transport

  /** flux_led's `LevelWriteMode`. */
  datatype LevelWriteMode = All | Colors | Whites

  /** A request the session hands to its flux_led protocol object. */
  datatype Command =
    | StateQuery
    | StateChange(turnOn: bool)
    | LevelsChange(persist: bool, red: Option<int>, green: Option<int>, blue: Option<int>,
                   warmWhite: Option<int>, coolWhite: Option<int>, writeMode: LevelWriteMode)
    | PresetPattern(pattern: int, speed: int, brightness: int)

  /** The exceptions a GATT write can raise: `BleakDBusError`,
      `BleakNotFoundError` and any other `BleakError`, or an exception of the
      retryable set that is not a `BleakError` (a timeout, say). */
  datatype LinkError = DBusError | NotFound | OtherBleakError | NonBleakError
  {
    predicate IsBleakError() { !NonBleakError? }
  }

  /** Why a `ValueError` was raised. */
  datatype ValueErrorReason =
    | ComponentOutOfRange          // a colour component outside 0..255
    | BrightnessOutOfRange         // a preset brightness outside 1..100
    | PatternRejected              // `PresetPattern.valid_or_raise`
    | NotAByte(value: int)         // `bytearray` given a value outside 0..255
    | EffectRejected(message: string)
    | UnknownProtocol(name: ProtocolName)  // `_set_protocol`
    | NotRegistered                // `list.remove` of a callback not in the list

  /** What a `CharacteristicMissingError` reports missing. */
  datatype MissingCharacteristic =
    | ReadSide      // "Read characteristic missing"
    | WriteSide     // "Write characteristic missing"
    | NoSupported   // "Failed to find supported characteristics ..."

  datatype Error =
    | ValueError(reason: ValueErrorReason)
    | CharacteristicMissing(missing: MissingCharacteristic)
    | Link(cause: LinkError)

  /** The write of frame `at` (counting from 0) raises `error`. */
  datatype Fault = Fault(at: nat, error: LinkError)

  /** A link handle as `BleakClientWithServiceCache` exposes it. */
  datatype Client = Client(isConnected: bool)

  /** Traffic the session puts on the transport. */
  datatype WireEvent =
    | Connect                                        // `establish_connection`
    | ClearCache                                     // `clear_cache`
    | StartNotify(characteristic: string)
    | Write(characteristic: string, frame: seq<Byte>)
    | StopNotify(characteristic: string)
    | Disconnect

  /** A registered state callback, compared by identity as Python compares
      functions. */
  datatype Callback = Callback(id: nat)

  /** One call `callback(state)`. */
  datatype Delivery = Delivery(callback: Callback, state: LedBleState)

  /** The calls `_fire_callbacks` makes: each callback, in list order, with
      the same state. */
  function Fanout(callbacks: seq<Callback>, state: LedBleState): (calls: seq<Delivery>)
    ensures |calls| == |callbacks|
  {
    seq(|callbacks|, i requires 0 <= i < |callbacks| => Delivery(callbacks[i], state))
  }

  /** The writes of `frames`, in order, to one characteristic. */
  function Writes(characteristic: string, frames: seq<seq<Byte>>): (events: seq<WireEvent>)
    ensures |events| == |frames|
  {
    seq(|frames|, i requires 0 <= i < |frames| => Write(characteristic, frames[i]))
  }

  /** How many frames an attempt writes before `fault` strikes. */
  function Written(frames: seq<seq<Byte>>, fault: Option<Fault>): (n: nat)
    ensures n <= |frames|
  {
    if fault.Some? && fault.value.at < |frames| then fault.value.at else |frames|
  }

  /** Whether `fault` strikes within `frames`. */
  predicate Strikes(frames: seq<seq<Byte>>, fault: Option<Fault>)
  {
    fault.Some? && fault.value.at < |frames|
  }

  /** The traffic `_execute_disconnect` puts on a link: stop notifications on
      the read characteristic if there is one, then disconnect; nothing for a
      link that is gone or already down. */
  function DisconnectTraffic(client: Option<Client>, readChar: Option<string>): (events: seq<WireEvent>)
    ensures |events| <= 2 && (events != [] ==> events[|events| - 1] == Disconnect)
  {
    if client.Some? && client.value.isConnected then
      (if readChar.Some? then [StopNotify(readChar.value)] else []) + [Disconnect]
    else []
  }

  // ---------------------------------------------------------------------
  // Callback list and characteristic choice, as values

  /** `list.remove(x)`: drop the first element equal to `x`. */
  function RemoveFirst(s: seq<Callback>, x: Callback): (r: seq<Callback>)
    ensures x !in s ==> r == s
    ensures x in s ==> |r| == |s| - 1 && multiset(r) == multiset(s) - multiset{x}
  {
    if s == [] then []
    else
      assert s == [s[0]] + s[1..];
      if s[0] == x then s[1..] else [s[0]] + RemoveFirst(s[1..], x)
  }

  /** Removing the first occurrence at index k leaves everything before and
      after it, in order. */
  lemma {:induction false} RemoveFirstAt(s: seq<Callback>, x: Callback, k: nat)
    requires k < |s| && s[k] == x && x !in s[..k]
    ensures RemoveFirst(s, x) == s[..k] + s[k + 1..]
  {
    if k > 0 {
      assert s[0] != x by { assert s[0] == s[..k][0]; }
      assert s[1..][..k - 1] == s[1..k];
      RemoveFirstAt(s[1..], x, k - 1);
      assert [s[0]] + s[1..k] == s[..k];
    }
  }

  /** Registering a callback that is not yet registered and then calling its
      unregister function gives back the original list. */
  lemma RegisterThenUnregister(s: seq<Callback>, x: Callback)
    requires x !in s
    ensures RemoveFirst(s + [x], x) == s
  {
    assert (s + [x])[..|s|] == s;
    RemoveFirstAt(s + [x], x, |s|);
  }

  /** Registering a callback that is already registered and then calling
      its unregister function removes the earlier copy, so the callback
      moves to the end of the list. */
  lemma {:induction false} UnregisterDuplicate(s: seq<Callback>, x: Callback)
    requires x in s
    ensures RemoveFirst(s + [x], x) == RemoveFirst(s, x) + [x]
  {
    assert (s + [x])[1..] == s[1..] + [x];
    if s[0] != x {
      UnregisterDuplicate(s[1..], x);
    }
  }

  /** The first candidate, in list order, that `services` contains. */
  function FirstPresent(candidates: seq<string>, services: set<string>): (found: Option<string>)
    ensures found.Some? ==> found.value in candidates && found.value in services
  {
    if candidates == [] then None
    else if candidates[0] in services then Some(candidates[0])
    else FirstPresent(candidates[1..], services)
  }

  /** `FirstPresent` picks a candidate that is present and comes before every
      other present candidate, and finds none only when none is present. */
  lemma {:induction false} FirstPresentIsFirst(candidates: seq<string>, services: set<string>)
    ensures FirstPresent(candidates, services).Some? ==>
              exists k :: 0 <= k < |candidates| && candidates[k] == FirstPresent(candidates, services).value &&
                candidates[k] in services && forall j :: 0 <= j < k ==> candidates[j] !in services
    ensures FirstPresent(candidates, services).None? <==> forall j :: 0 <= j < |candidates| ==> candidates[j] !in services
  {
    if candidates != [] && candidates[0] !in services {
      var rest := candidates[1..];
      FirstPresentIsFirst(rest, services);
      if FirstPresent(rest, services).Some? {
        var k :| 0 <= k < |rest| && rest[k] == FirstPresent(rest, services).value &&
          rest[k] in services && forall j :: 0 <= j < k ==> rest[j] !in services;
        assert candidates[k + 1] == rest[k];
        assert forall j :: 1 <= j < k + 1 ==> candidates[j] == rest[j - 1];
      }
      assert forall j :: 1 <= j < |candidates| ==> candidates[j] == rest[j - 1];
    }
  }

  /** What `_resolve_characteristics` leaves in one direction: the first
      candidate the services offer, or the previous value when none is. */
  function Chosen(candidates: seq<string>, services: set<string>, previous: Option<string>): (c: Option<string>)
    ensures c.Some? && c != previous ==> c.value in candidates && c.value in services
    ensures (forall j :: 0 <= j < |candidates| ==> candidates[j] !in services) ==> c == previous
  {
    FirstPresentIsFirst(candidates, services);
    if FirstPresent(candidates, services).Some? then FirstPresent(candidates, services) else previous
  }

  // ---------------------------------------------------------------------
  // The session

  class LedBle {
    // Collaborators the session is constructed with.
    const localName: Option<string>                  // advertisement local name, if any
    const encode: (ProtocolName, Command) -> seq<seq<Byte>>  // the flux_led protocol object's construct_* methods
    const protocolClasses: set<ProtocolName>          // the keys of flux_led's PROTOCOL_NAME_TO_CLS
    const validPattern: int -> bool                   // PresetPattern.valid_or_raise succeeds
    const strToVal: string -> Result<int, string>     // PresetPattern.str_to_val
    const effectIdName: map<int, string>              // EFFECT_ID_NAME
    const calculateBrightness: (Rgb, int) -> Rgb      // _calculate_brightness
    const rgbwBrightness: ((int, int, int, int), Option<int>) -> (int, int, int, int)  // rgbw_brightness
    const charMissingIsBleak: bool                    // CharacteristicMissingError derives from BleakError

    var state: LedBleState
    var callbacks: seq<Callback>
    var client: Option<Client>
    var readChar: Option<string>
    var writeChar: Option<string>
    var protocol: Option<ProtocolName>
    var modelData: Option<LedBleModel>
    var protocolResolved: bool     // `_resolve_protocol_event` is set
    var expectedDisconnect: bool
    var wire: seq<WireEvent>
    var delivered: seq<Delivery>

    /** The resolve flag, the model data and the protocol move together: model
        data exists exactly once the flag is set, and a protocol only then and
        only one flux_led knows. */
    ghost predicate Valid()
      reads this
    {
      && (modelData.Some? <==> protocolResolved)
      && (modelData.Some? ==> |modelData.value.protocols| > 0)
      && (protocol.Some? ==> protocolResolved && protocol.value in protocolClasses)
    }

    constructor (localName: Option<string>,
                 encode: (ProtocolName, Command) -> seq<seq<Byte>>,
                 protocolClasses: set<ProtocolName>,
                 validPattern: int -> bool,
                 strToVal: string -> Result<int, string>,
                 effectIdName: map<int, string>,
                 calculateBrightness: (Rgb, int) -> Rgb,
                 rgbwBrightness: ((int, int, int, int), Option<int>) -> (int, int, int, int),
                 charMissingIsBleak: bool)
      ensures Valid()
      ensures this.localName == localName && this.encode == encode && this.protocolClasses == protocolClasses
      ensures this.validPattern == validPattern && this.strToVal == strToVal && this.effectIdName == effectIdName
      ensures this.calculateBrightness == calculateBrightness && this.rgbwBrightness == rgbwBrightness
      ensures this.charMissingIsBleak == charMissingIsBleak
      ensures state == INITIAL_STATE && callbacks == [] && client.None? && readChar.None? && writeChar.None?
      ensures protocol.None? && modelData.None? && !protocolResolved && !expectedDisconnect
      ensures wire == [] && delivered == []
    {
      this.localName := localName;
      this.encode := encode;
      this.protocolClasses := protocolClasses;
      this.validPattern := validPattern;
      this.strToVal := strToVal;
      this.effectIdName := effectIdName;
      this.calculateBrightness := calculateBrightness;
      this.rgbwBrightness := rgbwBrightness;
      this.charMissingIsBleak := charMissingIsBleak;
      state := INITIAL_STATE;
      callbacks := [];
      client := None;
      readChar, writeChar := None, None;
      protocol, modelData := None, None;
      protocolResolved := false;
      expectedDisconnect := false;
      wire, delivered := [], [];
    }

    // ----- callbacks

    /** `_fire_callbacks`: call every registered callback, in order, with the
        current state. */
    method FireCallbacks()
      modifies this`delivered
      ensures delivered == old(delivered) + Fanout(callbacks, state)
    {
      for i := 0 to |callbacks|
        invariant delivered == old(delivered) + Fanout(callbacks[..i], state)
      {
        assert Fanout(callbacks[..i + 1], state) == Fanout(callbacks[..i], state) + [Delivery(callbacks[i], state)];
        delivered := delivered + [Delivery(callbacks[i], state)];
      }
      assert callbacks[..|callbacks|] == callbacks;
    }

    /** `register_callback`: append; the returned unregister function is
        `UnregisterCallback(callback)`. */
    method RegisterCallback(callback: Callback)
      modifies this`callbacks
      ensures callbacks == old(callbacks) + [callback]
    {
      callbacks := callbacks + [callback];
    }

    /** The unregister function `register_callback` returns:
        `self._callbacks.remove(callback)`, which raises `ValueError` when the
        callback is no longer in the list. */
    method UnregisterCallback(callback: Callback) returns (err: Option<Error>)
      modifies this`callbacks
      ensures callback in old(callbacks) ==> err.None? && callbacks == RemoveFirst(old(callbacks), callback)
      ensures callback !in old(callbacks) ==> err == Some(ValueError(NotRegistered)) && callbacks == old(callbacks)
    {
      if callback !in callbacks {
        return Some(ValueError(NotRegistered));
      }
      callbacks := RemoveFirst(callbacks, callback);
      err := None;
    }

    // ----- notifications

    /** `_notification_handler`. A four-byte frame starting 0xCC only sets the
        power flag. Any other frame shorter than 11 bytes is ignored. A full
        frame replaces the state; the first one also sets the resolve flag,
        looks up the model and sets the protocol it names (raising, before any
        callback, if flux_led has no such protocol); then every callback sees
        the new state. */
    method NotificationHandler(data: seq<Byte>) returns (err: Option<Error>)
      requires Valid()
      modifies this`state, this`protocolResolved, this`modelData, this`protocol, this`delivered
      ensures Valid()
      ensures |data| == 4 && data[0] == 0xCC ==>
        err.None? && state == old(state).(power := data[1] == POWER_ON) &&
        protocolResolved == old(protocolResolved) && modelData == old(modelData) &&
        protocol == old(protocol) && delivered == old(delivered)
      ensures |data| < 11 && !(|data| == 4 && data[0] == 0xCC) ==>
        err.None? && unchanged(this)
      ensures |data| >= 11 ==> state == DecodeStatus(data) && protocolResolved
      ensures |data| >= 11 && old(protocolResolved) ==>
        err.None? && modelData == old(modelData) && protocol == old(protocol) &&
        delivered == old(delivered) + Fanout(callbacks, state)
      ensures |data| >= 11 && !old(protocolResolved) ==>
        var model := GetModel(data[1], None);
        var name := model.ProtocolFor(data[10]);
        modelData == Some(model) &&
        (name in protocolClasses ==>
           err.None? && protocol == Some(name) && delivered == old(delivered) + Fanout(callbacks, state)) &&
        (name !in protocolClasses ==>
           err == Some(ValueError(UnknownProtocol(name))) && protocol == old(protocol) && delivered == old(delivered))
    {
      if |data| == 4 && data[0] == 0xCC {
        state := state.(power := data[1] == POWER_ON);
        return None;
      }
      if |data| < 11 {
        return None;
      }
      state := DecodeStatus(data);
      if !protocolResolved {
        err := ResolveFromStatus(GetModel(data[1], None), data[10]);
        if err.Some? {
          return;
        }
      }
      FireCallbacks();
      err := None;
    }

    /** The first full status frame, once `model` has been looked up for it:
        set the resolve flag, keep the model, and set the protocol the model
        picks for the frame's firmware version. */
    method ResolveFromStatus(model: LedBleModel, versionNum: int) returns (err: Option<Error>)
      requires Valid() && !protocolResolved && |model.protocols| > 0
      modifies this`protocolResolved, this`modelData, this`protocol
      ensures Valid() && protocolResolved && modelData == Some(model)
      ensures model.ProtocolFor(versionNum) in protocolClasses ==>
        err.None? && protocol == Some(model.ProtocolFor(versionNum))
      ensures model.ProtocolFor(versionNum) !in protocolClasses ==>
        err == Some(ValueError(UnknownProtocol(model.ProtocolFor(versionNum)))) && protocol == old(protocol)
    {
      protocolResolved := true;
      modelData := Some(model);
      var name := model.ProtocolForVersionNum(versionNum);
      err := SetProtocol(name);
    }

    /** `_set_protocol`: only names flux_led has a class for are accepted. */
    method SetProtocol(name: ProtocolName) returns (err: Option<Error>)
      requires protocolResolved
      modifies this`protocol
      ensures name in protocolClasses ==> err.None? && protocol == Some(name)
      ensures name !in protocolClasses ==> err == Some(ValueError(UnknownProtocol(name))) && protocol == old(protocol)
    {
      if name !in protocolClasses {
        return Some(ValueError(UnknownProtocol(name)));
      }
      protocol := Some(name);
      err := None;
    }

    // ----- characteristics and commands

    /** `_resolve_characteristics`: for each direction, take the first
        candidate UUID the services offer; a direction with no match keeps
        whatever it held before. Succeeds when both are set. */
    method ResolveCharacteristics(services: set<string>) returns (ok: bool)
      modifies this`readChar, this`writeChar
      ensures readChar == Chosen(POSSIBLE_READ_CHARACTERISTIC_UUIDS, services, old(readChar))
      ensures writeChar == Chosen(POSSIBLE_WRITE_CHARACTERISTIC_UUIDS, services, old(writeChar))
      ensures ok <==> readChar.Some? && writeChar.Some?
    {
      var readCandidates := POSSIBLE_READ_CHARACTERISTIC_UUIDS;
      var i := 0;
      while i < |readCandidates|
        invariant 0 <= i <= |readCandidates|
        invariant FirstPresent(readCandidates[i..], services) == FirstPresent(readCandidates, services)
        invariant readChar == old(readChar)
      {
        if readCandidates[i] in services {
          readChar := Some(readCandidates[i]);
          break;
        }
        assert readCandidates[i..][1..] == readCandidates[i + 1..];
        i := i + 1;
      }
      var writeCandidates := POSSIBLE_WRITE_CHARACTERISTIC_UUIDS;
      i := 0;
      while i < |writeCandidates|
        invariant 0 <= i <= |writeCandidates|
        invariant FirstPresent(writeCandidates[i..], services) == FirstPresent(writeCandidates, services)
        invariant writeChar == old(writeChar)
      {
        if writeCandidates[i] in services {
          writeChar := Some(writeCandidates[i]);
          break;
        }
        assert writeCandidates[i..][1..] == writeCandidates[i + 1..];
        i := i + 1;
      }
      ok := readChar.Some? && writeChar.Some?;
    }

    /** `_ensure_connected`, up to subscribing to notifications. A live link
        only restarts the idle window. Otherwise it connects at most twice:
        the first link whose services offer both characteristics is kept;
        after a first miss the service cache is cleared and that link
        dropped; after a second miss that link is dropped too and
        `CharacteristicMissingError` is raised. The kept link has
        notifications started on the read characteristic. `firstServices`
        and `retryServices` are what each connection's services offer. */
    method EnsureConnected(firstServices: set<string>, retryServices: set<string>) returns (err: Option<Error>)
      modifies this`client, this`readChar, this`writeChar, this`expectedDisconnect, this`wire
      ensures old(client).Some? && old(client).value.isConnected ==>
        err.None? && !expectedDisconnect && client == old(client) &&
        readChar == old(readChar) && writeChar == old(writeChar) && wire == old(wire)
      ensures !(old(client).Some? && old(client).value.isConnected) ==>
        var read1 := Chosen(POSSIBLE_READ_CHARACTERISTIC_UUIDS, firstServices, old(readChar));
        var write1 := Chosen(POSSIBLE_WRITE_CHARACTERISTIC_UUIDS, firstServices, old(writeChar));
        var read2 := Chosen(POSSIBLE_READ_CHARACTERISTIC_UUIDS, retryServices, read1);
        var write2 := Chosen(POSSIBLE_WRITE_CHARACTERISTIC_UUIDS, retryServices, write1);
        if read1.Some? && write1.Some? then
          err.None? && client == Some(Client(true)) && !expectedDisconnect &&
          readChar == read1 && writeChar == write1 &&
          wire == old(wire) + [Connect, StartNotify(read1.value)]
        else if read2.Some? && write2.Some? then
          err.None? && client == Some(Client(true)) && !expectedDisconnect &&
          readChar == read2 && writeChar == write2 &&
          wire == old(wire) + [Connect, ClearCache, Disconnect, Connect, StartNotify(read2.value)]
        else
          err == Some(CharacteristicMissing(NoSupported)) && client == old(client) &&
          expectedDisconnect == old(expectedDisconnect) && readChar == read2 && writeChar == write2 &&
          wire == old(wire) + [Connect, ClearCache, Disconnect, Connect, Disconnect]
    {
      if client.Some? && client.value.isConnected {
        ResetDisconnectTimer();
        return None;
      }
      wire := wire + [Connect];
      var found := ResolveCharacteristics(firstServices);
      if !found {
        wire := wire + [ClearCache, Disconnect, Connect];
        found := ResolveCharacteristics(retryServices);
        if !found {
          wire := wire + [Disconnect];
          return Some(CharacteristicMissing(NoSupported));
        }
      }
      client := Some(Client(true));
      ResetDisconnectTimer();
      wire := wire + [StartNotify(readChar.value)];
      err := None;
    }

    /** `_execute_command_locked`: with both characteristics resolved, write
        every frame, in order, to the write characteristic; a write that
        raises ends the attempt there. */
    method ExecuteCommandLocked(commands: seq<seq<Byte>>, fault: Option<Fault>) returns (err: Option<Error>)
      requires client.Some?
      modifies this`wire
      ensures readChar.None? ==> err == Some(CharacteristicMissing(ReadSide)) && wire == old(wire)
      ensures readChar.Some? && writeChar.None? ==> err == Some(CharacteristicMissing(WriteSide)) && wire == old(wire)
      ensures readChar.Some? && writeChar.Some? ==>
        wire == old(wire) + Writes(writeChar.value, commands[..Written(commands, fault)]) &&
        err == if Strikes(commands, fault) then Some(Link(fault.value.error)) else None
    {
      if readChar.None? {
        return Some(CharacteristicMissing(ReadSide));
      }
      if writeChar.None? {
        return Some(CharacteristicMissing(WriteSide));
      }
      var target := writeChar.value;
      for i := 0 to |commands|
        invariant wire == old(wire) + Writes(target, commands[..i])
        invariant fault.Some? ==> fault.value.at >= i
      {
        if fault.Some? && fault.value.at == i {
          return Some(Link(fault.value.error));
        }
        assert commands[..i + 1] == commands[..i] + [commands[i]];
        wire := wire + [Write(target, commands[i])];
      }
      assert commands[..|commands|] == commands;
      err := None;
    }

    /** `_execute_disconnect`: mark the disconnect as expected, forget the link
        and both characteristics, and, if the link was up, stop notifications
        and disconnect. */
    method ExecuteDisconnect()
      modifies this`expectedDisconnect, this`client, this`readChar, this`writeChar, this`wire
      ensures expectedDisconnect && client.None? && readChar.None? && writeChar.None?
      ensures wire == old(wire) + DisconnectTraffic(old(client), old(readChar))
    {
      var lastRead := readChar;
      var lastClient := client;
      expectedDisconnect := true;
      client := None;
      readChar := None;
      writeChar := None;
      if lastClient.Some? && lastClient.value.isConnected {
        if lastRead.Some? {
          wire := wire + [StopNotify(lastRead.value)];
        }
        wire := wire + [Disconnect];
      }
    }

    /** `_reset_disconnect_timer`, without the timer: a fresh inactivity window
        means the next disconnect is unexpected again. */
    method ResetDisconnectTimer()
      modifies this`expectedDisconnect
      ensures !expectedDisconnect
    {
      expectedDisconnect := false;
    }

    /** The transport losing the link on its own: bleak marks the client as
        no longer connected and tells `_disconnected`, which only logs. The
        session keeps its handle, and the next `EnsureConnected` replaces it. */
    method LinkLost()
      modifies this`client
      ensures client == if old(client).Some? then Some(Client(false)) else None
    {
      if client.Some? {
        client := Some(Client(false));
      }
    }

    /** Whether `_send_command_locked` treats `e` as a `BleakError`, and so
        disconnects before re-raising it: every Bleak link error, and a missing
        characteristic when `CharacteristicMissingError` is a `BleakError`. */
    predicate DisconnectsOn(e: Error)
    {
      || (e.Link? && e.cause.IsBleakError())
      || (e.CharacteristicMissing? && charMissingIsBleak)
    }

    /** What one attempt of `_send_command_locked` does: the writes of
        `_execute_command_locked`; on an error it treats as a `BleakError`, a
        disconnect and the same error; any other error passes through with the
        link left as it was. */
    twostate predicate AttemptEffect(commands: seq<seq<Byte>>, fault: Option<Fault>, new err: Option<Error>)
      reads this
    {
      var linkKept := client == old(client) && readChar == old(readChar) &&
                      writeChar == old(writeChar) && expectedDisconnect == old(expectedDisconnect);
      var linkDropped := expectedDisconnect && client.None? && readChar.None? && writeChar.None?;
      var missing :=
        if old(readChar).None? then Some(CharacteristicMissing(ReadSide))
        else if old(writeChar).None? then Some(CharacteristicMissing(WriteSide))
        else None;
      if missing.Some? then
        err == missing &&
        if charMissingIsBleak then wire == old(wire) + DisconnectTraffic(old(client), old(readChar)) && linkDropped
        else wire == old(wire) && linkKept
      else
        var written := old(wire) + Writes(old(writeChar).value, commands[..Written(commands, fault)]);
        if !Strikes(commands, fault) then
          err.None? && wire == written && linkKept
        else if fault.value.error.IsBleakError() then
          err == Some(Link(fault.value.error)) &&
          wire == written + DisconnectTraffic(old(client), old(readChar)) && linkDropped
        else
          err == Some(Link(fault.value.error)) && wire == written && linkKept
    }

    /** `_send_command_locked`, one attempt: every `BleakError` (the D-Bus kind
        after a back-off delay) disconnects before it is re-raised. */
    method SendCommandLocked(commands: seq<seq<Byte>>, fault: Option<Fault>) returns (err: Option<Error>)
      requires client.Some?
      modifies this`wire, this`client, this`readChar, this`writeChar, this`expectedDisconnect
      ensures AttemptEffect(commands, fault, err)
    {
      err := ExecuteCommandLocked(commands, fault);
      if err.Some? && DisconnectsOn(err.value) {
        ExecuteDisconnect();
      }
    }

    /** `_resolve_protocol`, up to its wait: once the resolve flag is set there
        is nothing to do; before that, one attempt at sending the status query.
        The answer arrives through `NotificationHandler`. */
    method ResolveProtocol(fault: Option<Fault>) returns (err: Option<Error>)
      requires client.Some?
      modifies this`wire, this`client, this`readChar, this`writeChar, this`expectedDisconnect
      ensures protocolResolved ==> err.None? && unchanged(this)
      ensures !protocolResolved ==> AttemptEffect([STATE_COMMAND], fault, err)
    {
      if protocolResolved {
        return None;
      }
      err := SendCommandLocked([STATE_COMMAND], fault);
    }

    // ----- public operations

    /** `update`: send the protocol's state query. */
    method Update(fault: Option<Fault>) returns (err: Option<Error>)
      requires Valid() && client == Some(Client(true)) && protocol.Some?
      modifies this`wire, this`client, this`readChar, this`writeChar, this`expectedDisconnect
      ensures Valid()
      ensures AttemptEffect(encode(old(protocol).value, StateQuery), fault, err)
    {
      err := SendCommandLocked(encode(protocol.value, StateQuery), fault);
    }

    /** `turn_on`: after the frames are sent, the state says "on" and every
        callback sees it. */
    method TurnOn(fault: Option<Fault>) returns (err: Option<Error>)
      requires Valid() && client == Some(Client(true)) && protocol.Some?
      modifies this`state, this`delivered, this`wire, this`client, this`readChar, this`writeChar, this`expectedDisconnect
      ensures Valid()
      ensures AttemptEffect(encode(old(protocol).value, StateChange(true)), fault, err)
      ensures err.None? ==> state == old(state).(power := true) && delivered == old(delivered) + Fanout(callbacks, state)
      ensures err.Some? ==> state == old(state) && delivered == old(delivered)
    {
      err := SendCommandLocked(encode(protocol.value, StateChange(true)), fault);
      if err.None? {
        state := state.(power := true);
        FireCallbacks();
      }
    }

    /** `turn_off`. */
    method TurnOff(fault: Option<Fault>) returns (err: Option<Error>)
      requires Valid() && client == Some(Client(true)) && protocol.Some?
      modifies this`state, this`delivered, this`wire, this`client, this`readChar, this`writeChar, this`expectedDisconnect
      ensures Valid()
      ensures AttemptEffect(encode(old(protocol).value, StateChange(false)), fault, err)
      ensures err.None? ==> state == old(state).(power := false) && delivered == old(delivered) + Fanout(callbacks, state)
      ensures err.Some? ==> state == old(state) && delivered == old(delivered)
    {
      err := SendCommandLocked(encode(protocol.value, StateChange(false)), fault);
      if err.None? {
        state := state.(power := false);
        FireCallbacks();
      }
    }

    /** `set_rgb`: reject any component outside 0..255 before anything else;
        otherwise apply the brightness, send the colour, and record it with
        white off. */
    method SetRgb(rgb: Rgb, brightness: Option<int>, fault: Option<Fault>) returns (err: Option<Error>)
      requires Valid()
      requires InRange(rgb) ==> client == Some(Client(true)) && protocol.Some?
      modifies this`state, this`delivered, this`wire, this`client, this`readChar, this`writeChar, this`expectedDisconnect
      ensures Valid()
      ensures !InRange(rgb) ==> err == Some(ValueError(ComponentOutOfRange)) && unchanged(this)
      ensures InRange(rgb) ==>
        var sent := if brightness.Some? then calculateBrightness(rgb, brightness.value) else rgb;
        AttemptEffect(encode(old(protocol).value,
                             LevelsChange(true, Some(sent.0), Some(sent.1), Some(sent.2), None, None, Colors)), fault, err) &&
        (err.None? ==> state == old(state).(rgb := sent, w := 0,
                                            presetPattern := if old(IsDream(state.modelNum, localName)) then 1
                                                             else old(state.presetPattern)) &&
                       delivered == old(delivered) + Fanout(callbacks, state)) &&
        (err.Some? ==> state == old(state) && delivered == old(delivered))
    {
      if !InRange(rgb) {
        return Some(ValueError(ComponentOutOfRange));
      }
      var sent := if brightness.Some? then calculateBrightness(rgb, brightness.value) else rgb;
      err := SendCommandLocked(encode(protocol.value,
                                      LevelsChange(true, Some(sent.0), Some(sent.1), Some(sent.2), None, None, Colors)), fault);
      if err.None? {
        state := state.(rgb := sent, w := 0,
                        presetPattern := if IsDream(state.modelNum, localName) then 1 else state.presetPattern);
        FireCallbacks();
      }
    }

    /** `set_rgbw`: reject any component outside 0..255 before anything else;
        otherwise send the brightness-adjusted levels, but record the colour and
        white as they were given. */
    method SetRgbw(rgbw: (int, int, int, int), brightness: Option<int>, fault: Option<Fault>) returns (err: Option<Error>)
      requires Valid()
      requires InRange4(rgbw) ==> client == Some(Client(true)) && protocol.Some?
      modifies this`state, this`delivered, this`wire, this`client, this`readChar, this`writeChar, this`expectedDisconnect
      ensures Valid()
      ensures !InRange4(rgbw) ==> err == Some(ValueError(ComponentOutOfRange)) && unchanged(this)
      ensures InRange4(rgbw) ==>
        var sent := rgbwBrightness(rgbw, brightness);
        AttemptEffect(encode(old(protocol).value,
                             LevelsChange(true, Some(sent.0), Some(sent.1), Some(sent.2), Some(sent.3), None, All)), fault, err) &&
        (err.None? ==> state == old(state).(rgb := (rgbw.0, rgbw.1, rgbw.2), w := rgbw.3,
                                            presetPattern := if old(IsDream(state.modelNum, localName)) then 1
                                                             else old(state.presetPattern)) &&
                       delivered == old(delivered) + Fanout(callbacks, state)) &&
        (err.Some? ==> state == old(state) && delivered == old(delivered))
    {
      if !InRange4(rgbw) {
        return Some(ValueError(ComponentOutOfRange));
      }
      var sent := rgbwBrightness(rgbw, brightness);
      err := SendCommandLocked(encode(protocol.value,
                                      LevelsChange(true, Some(sent.0), Some(sent.1), Some(sent.2), Some(sent.3), None, All)), fault);
      if err.None? {
        state := state.(rgb := (rgbw.0, rgbw.1, rgbw.2), w := rgbw.3,
                        presetPattern := if IsDream(state.modelNum, localName) then 1 else state.presetPattern);
        FireCallbacks();
      }
    }

    /** `set_white`: reject a level outside 0..255 before anything else;
        otherwise send white only and record the colour as black. */
    method SetWhite(brightness: int, fault: Option<Fault>) returns (err: Option<Error>)
      requires Valid()
      requires IsByte(brightness) ==> client == Some(Client(true)) && protocol.Some?
      modifies this`state, this`delivered, this`wire, this`client, this`readChar, this`writeChar, this`expectedDisconnect
      ensures Valid()
      ensures !IsByte(brightness) ==> err == Some(ValueError(ComponentOutOfRange)) && unchanged(this)
      ensures IsByte(brightness) ==>
        AttemptEffect(encode(old(protocol).value,
                             LevelsChange(true, Some(0), Some(0), Some(0), Some(brightness), None, Whites)), fault, err) &&
        (err.None? ==> state == old(state).(rgb := (0, 0, 0), w := brightness,
                                            presetPattern := if old(IsDream(state.modelNum, localName)) then 1
                                                             else old(state.presetPattern)) &&
                       delivered == old(delivered) + Fanout(callbacks, state)) &&
        (err.Some? ==> state == old(state) && delivered == old(delivered))
    {
      if !IsByte(brightness) {
        return Some(ValueError(ComponentOutOfRange));
      }
      err := SendCommandLocked(encode(protocol.value,
                                      LevelsChange(true, Some(0), Some(0), Some(0), Some(brightness), None, Whites)), fault);
      if err.None? {
        state := state.(rgb := (0, 0, 0), w := brightness,
                        presetPattern := if IsDream(state.modelNum, localName) then 1 else state.presetPattern);
        FireCallbacks();
      }
    }

    /** `_generate_preset_pattern`: a Dream controller takes the seven-byte
        Dream frame; any other checks the pattern and a brightness in 1..100
        and asks its protocol. */
    function GeneratePresetPattern(pattern: int, speed: int, brightness: int): (r: Result<seq<seq<Byte>>, Error>)
      reads this
      requires !IsDream(state.modelNum, localName) && validPattern(pattern) && 1 <= brightness <= 100 ==> protocol.Some?
      ensures IsDream(state.modelNum, localName) ==>
                (r.Ok? <==> IsByte(pattern) && IsByte(PercentTo255(speed)) && IsByte(PercentTo255(brightness)))
      ensures IsDream(state.modelNum, localName) && r.Ok? ==>
        r.value == [[0x9E, 0x00, pattern, PercentTo255(speed), PercentTo255(brightness), 0x00, 0xE9]]
      ensures !IsDream(state.modelNum, localName) ==> (r.Ok? <==> validPattern(pattern) && 1 <= brightness <= 100)
      ensures !IsDream(state.modelNum, localName) && !validPattern(pattern) ==> r == Err(ValueError(PatternRejected))
      ensures !IsDream(state.modelNum, localName) && r.Ok? ==>
                r.value == encode(protocol.value, PresetPattern(pattern, speed, brightness))
    {
      if IsDream(state.modelNum, localName) then
        match DreamPresetFrame(pattern, speed, brightness)
        case Ok(frame) => Ok([frame])
        case Err(ByteOutOfRange(v)) => Err(ValueError(NotAByte(v)))
      else if !validPattern(pattern) then Err(ValueError(PatternRejected))
      else if !(1 <= brightness <= 100) then Err(ValueError(BrightnessOutOfRange))
      else Ok(encode(protocol.value, PresetPattern(pattern, speed, brightness)))
    }

    /** `async_set_preset_pattern`: after the frames are sent, a Dream
        controller records mode `effect` under preset pattern 0, any other
        records preset pattern `effect`. */
    method AsyncSetPresetPattern(effect: int, speed: int, brightness: int, fault: Option<Fault>) returns (err: Option<Error>)
      requires Valid()
      requires !IsDream(state.modelNum, localName) && validPattern(effect) && 1 <= brightness <= 100 ==> protocol.Some?
      requires GeneratePresetPattern(effect, speed, brightness).Ok? ==> client == Some(Client(true))
      modifies this`state, this`delivered, this`wire, this`client, this`readChar, this`writeChar, this`expectedDisconnect
      ensures Valid()
      ensures old(GeneratePresetPattern(effect, speed, brightness)).Err? ==>
        err == Some(old(GeneratePresetPattern(effect, speed, brightness)).error) && unchanged(this)
      ensures old(GeneratePresetPattern(effect, speed, brightness)).Ok? ==>
        AttemptEffect(old(GeneratePresetPattern(effect, speed, brightness)).value, fault, err) &&
        (err.None? ==> state == (if old(IsDream(state.modelNum, localName)) then old(state).(presetPattern := 0, mode := effect)
                                 else old(state).(presetPattern := effect)) &&
                       delivered == old(delivered) + Fanout(callbacks, state)) &&
        (err.Some? ==> state == old(state) && delivered == old(delivered))
    {
      var command := GeneratePresetPattern(effect, speed, brightness);
      if command.Err? {
        return Some(command.error);
      }
      err := SendCommandLocked(command.value, fault);
      if err.None? {
        if IsDream(state.modelNum, localName) {
          state := state.(presetPattern := 0, mode := effect);
        } else {
          state := state.(presetPattern := effect);
        }
        FireCallbacks();
      }
    }

    /** `_effect_to_pattern`, with its `ValueError` as an `Error`: a Dream
        controller accepts exactly the names of `DREAM_EFFECTS` and gives
        their mode; any other accepts what flux_led's `str_to_val` accepts and
        gives its value. */
    function EffectPattern(effect: string): (r: Result<int, Error>)
      reads this
      ensures IsDream(state.modelNum, localName) ==>
                (r.Ok? <==> effect in DreamEffectTable()) && (r.Ok? ==> r.value == DreamEffectTable()[effect])
      ensures !IsDream(state.modelNum, localName) ==>
                (r.Ok? <==> strToVal(effect).Ok?) && (r.Ok? ==> r.value == strToVal(effect).value)
      ensures r.Err? ==> r.error.ValueError? && r.error.reason.EffectRejected?
    {
      match EffectToPattern(IsDream(state.modelNum, localName), effect, strToVal)
      case Ok(p) => Ok(p)
      case Err(message) => Err(ValueError(EffectRejected(message)))
    }

    /** The `effect` property of this session: a Dream controller running a
        table mode reports a name that `_effect_to_pattern` turns back into
        that mode; any other controller reports the `EFFECT_ID_NAME` entry of
        its preset pattern, if there is one. */
    function Effect(): (e: Option<string>)
      reads this
      ensures IsDream(state.modelNum, localName) && state.presetPattern == 0 && 0 <= state.mode < 255 ==>
                e.Some? && EffectPattern(e.value) == Ok(state.mode)
      ensures !(IsDream(state.modelNum, localName) && state.presetPattern == 0) ==>
                (e.Some? <==> state.presetPattern in effectIdName) &&
                (e.Some? ==> e.value == effectIdName[state.presetPattern])
    {
      CurrentEffect(IsDream(state.modelNum, localName), state.presetPattern, state.mode, effectIdName)
    }

    /** `async_set_effect`: translate the name, then set that preset pattern. */
    method AsyncSetEffect(effect: string, speed: int, brightness: int, fault: Option<Fault>) returns (err: Option<Error>)
      requires Valid()
      requires EffectPattern(effect).Ok? ==>
        var p := EffectPattern(effect).value;
        (!IsDream(state.modelNum, localName) && validPattern(p) && 1 <= brightness <= 100 ==> protocol.Some?) &&
        (GeneratePresetPattern(p, speed, brightness).Ok? ==> client == Some(Client(true)))
      modifies this`state, this`delivered, this`wire, this`client, this`readChar, this`writeChar, this`expectedDisconnect
      ensures Valid()
      ensures old(EffectPattern(effect)).Err? ==> err == Some(old(EffectPattern(effect)).error) && unchanged(this)
      ensures old(EffectPattern(effect)).Ok? && old(GeneratePresetPattern(EffectPattern(effect).value, speed, brightness)).Err? ==>
        err == Some(old(GeneratePresetPattern(EffectPattern(effect).value, speed, brightness)).error) && unchanged(this)
      ensures old(EffectPattern(effect)).Ok? && old(GeneratePresetPattern(EffectPattern(effect).value, speed, brightness)).Ok? ==>
        var p := old(EffectPattern(effect)).value;
        AttemptEffect(old(GeneratePresetPattern(EffectPattern(effect).value, speed, brightness)).value, fault, err) &&
        (err.None? ==> state == (if old(IsDream(state.modelNum, localName)) then old(state).(presetPattern := 0, mode := p)
                                 else old(state).(presetPattern := p)) &&
                       delivered == old(delivered) + Fanout(callbacks, state)) &&
        (err.Some? ==> state == old(state) && delivered == old(delivered))
    {
      var pattern := EffectPattern(effect);
      if pattern.Err? {
        return Some(pattern.error);
      }
      err := AsyncSetPresetPattern(pattern.value, speed, brightness, fault);
    }

    /** `stop`. */
    method Stop()
      modifies this`expectedDisconnect, this`client, this`readChar, this`writeChar, this`wire
      ensures expectedDisconnect && client.None? && readChar.None? && writeChar.None?
      ensures wire == old(wire) + DisconnectTraffic(old(client), old(readChar))
    {
      ExecuteDisconnect();
    }
  }

  /** Every component of a colour in 0..255. */
  predicate InRange(rgb: Rgb)
  {
    IsByte(rgb.0) && IsByte(rgb.1) && IsByte(rgb.2)
  }

  predicate InRange4(rgbw: (int, int, int, int))
  {
    IsByte(rgbw.0) && IsByte(rgbw.1) && IsByte(rgbw.2) && IsByte(rgbw.3)
  }
}
