# led-ble, modelled in Dafny

led-ble drives Bluetooth Low Energy LED controllers. This project models three parts of it and proves properties about them:

- **The `LEDBLE` session** (`led_ble.dfy`, module `LedBleSession`). This is a class holding:
  - the last known device state and the registered state callbacks;
  - the link and its read/write characteristics;
  - the protocol resolved from the first status notification;
  - whether the next disconnect is expected.

  Its methods cover:
  - decoding status notifications;
  - connecting: choosing characteristics from ordered candidate UUID lists, with one retry;
  - registering, unregistering and firing callbacks;
  - writing command frames, including one attempt of the per-attempt error handler;
  - disconnect bookkeeping;
  - the public setters: power, RGB, RGBW, white, preset pattern and effect.

  The transport is abstract. A link is a `Client` handle, and every connection, cache clear, notification start or stop, GATT write and disconnect is appended to a `wire` log. A failing write is described up front by a `Fault` (which frame fails, and with which exception). Calling a callback appends a `Delivery` to a `delivered` log.
- **Dream controllers** (`dream_effects.dfy`, module `DreamEffects`):
  - the `DREAM_EFFECTS` name table;
  - the `dream` and `effect` properties;
  - `_effect_to_pattern`;
  - the seven-byte Dream preset frame.
- **The Hello Fairy frame codec** `ProtocolFairy` (`fairy_protocol.dfy`, module `FairyProtocol`). Every frame is a body followed by a checksum byte, the sum of the body modulo 256. A value that Python's `bytearray` cannot hold gives an `Err`, where Python raises `ValueError`.
- **The model registry** (`model_db.dfy`, module `ModelDb`):
  - the five shipped models and `MODEL_MAP`;
  - the first-match rule `protocol_for_version_num`;
  - the "Unknown Model" fallback.

`bytes.dfy` holds the byte type, byte sums, `& 0xFF`, `>> 8` and big-endian packing. `wrappers.dfy` holds `Option` and `Result`.

Python integers are unbounded, as Dafny's are. `x & 0xFF` is `x % 256` and `x >> 8` is `x / 256`: Dafny's Euclidean operators agree with Python's for every integer `x`. `int(x * 255 / 100)` truncates toward zero, and `PercentTo255` writes that out.

## Model

| member | source | states |
|---|---|---|
| `Bytes.Sum` | src/led_ble/protocol.py:128 | the byte sum of a sequence is at most 255 per byte |
| `Bytes.SumAppend` | src/led_ble/protocol.py:128 | the sum of a concatenation is the sum of its parts |
| `Bytes.SumUpToFour` | src/led_ble/protocol.py:128 | the sum of one to four bytes, written out element by element |
| `Bytes.LowByte` | src/led_ble/protocol.py:84-86 | `x & 0xFF` is the byte congruent to `x` modulo 256 |
| `Bytes.ShiftRight8` | src/led_ble/protocol.py:61-66 | `x >> 8` is the `r` with `256r <= x < 256r + 256` |
| `Bytes.BigEndian16` | src/led_ble/protocol.py:85-86 | two bytes; for `0 <= x < 65536` they read back as `x`, high byte first |
| `FairyProtocol.ConstructMessage` | src/led_ble/protocol.py:126-130 | the result is the body plus one byte; the body is kept as a prefix; the last byte is the body's sum mod 256 |
| `FairyProtocol.ConstructMessageInPlace` | src/led_ble/protocol.py:126-130 | the checksum is appended to the caller's buffer, and that same buffer is returned |
| `FairyProtocol.Unframe` | src/led_ble/protocol.py:126-130 | an accepted frame gives back everything but its last byte |
| `FairyProtocol.FramingRoundTrip` | src/led_ble/protocol.py:126-130 | unframing undoes framing; a frame unframes to `raw` exactly when it is `ConstructMessage(raw)` |
| `FairyProtocol.ConstructStateQuery` | src/led_ble/protocol.py:16-18 | exactly `AA 01 00 AB` |
| `FairyProtocol.FlagFrame` | src/led_ble/protocol.py:20-34 | `AA op 01 f`, then checksum `0xAB + op + f`; the frame is well framed |
| `FairyProtocol.ConstructStateChange` | src/led_ble/protocol.py:20-24 | `AA 02 01 01 AE` to turn on, `AA 02 01 00 AD` to turn off |
| `FairyProtocol.ConstructPause` | src/led_ble/protocol.py:26-28 | `AA 11 01 01 BD` / `AA 11 01 00 BC` |
| `FairyProtocol.ConstructIrState` | src/led_ble/protocol.py:30-34 | `AA 0F 01 01 BB` / `AA 0F 01 00 BA` |
| `FairyProtocol.ConstructLevelsChange` | src/led_ble/protocol.py:50-70 | succeeds exactly when the capped hue `min(h, 359)`, saturation and value are all in 0..65535, giving one well-framed 11-byte frame `AA 03 07 01` whose three big-endian pairs read back as those values; a negative hue, or saturation outside 0..65535, fails with `ByteOutOfRange` of its unmasked high byte |
| `FairyProtocol.ConstructPresetPattern` | src/led_ble/protocol.py:72-91 | succeeds iff speed >= 0; two well-framed frames: `AA 03 04 02 (pattern & FF) brightness-hi brightness-lo` and `AA 0C 01 min(speed, 100)`; a negative speed is reported as the offending value |
| `FairyProtocol.ConstructMotion` | src/led_ble/protocol.py:118-124 | succeeds iff speed and transition are bytes; one well-framed 8-byte frame `AA D0 04 t 64 speed 01` |
| `FairyProtocol.FillHueEntries` | src/led_ble/protocol.py:99-111 | entry i, `[i >> 8, i & FF, hue_i]`, lands at offsets 4+3i..6+3i and the four header bytes are untouched |
| `FairyProtocol.ConstructCustomEffect` | src/led_ble/protocol.py:93-116 | succeeds iff `3n+1 <= 255` and speed is a byte; three frames: motion(speed, 0), the hue message, motion(speed, 2); the hue message is well framed, with header `AA DA (3n+1) 01` and entry i `[i >> 8, i & FF, hue_i]` at offsets 4+3i..6+3i |
| `ModelDb.LedBleModel.ProtocolForVersionNum` | src/led_ble/model_db.py:25-31 | the protocol of the first rule, in list order, whose minimum version the version reaches; the last rule's protocol when none does |
| `ModelDb.FirstMatchFromIsFirst` | src/led_ble/model_db.py:25-31 | the index found matches, and every earlier rule does not; none is found iff no rule matches |
| `ModelDb.LedBleModel.ProtocolFor` | src/led_ble/model_db.py:25-31 | the protocol picked is the protocol of one of the model's rules |
| `ModelDb.BuildModelMap` | src/led_ble/model_db.py:83 | the comprehension's keys are exactly the listed numbers, each mapped to a listed model that carries that number |
| `ModelDb.BuildModelMapLastWins` | src/led_ble/model_db.py:83 | the last listed model with a given number is the one kept |
| `ModelDb.ModelMap` | src/led_ble/model_db.py:34-83 | `MODEL_MAP` has exactly the keys 0x04, 0x10, 0x15, 0x54, 0xE3, each mapped to a shipped model with that number |
| `ModelDb.ModelMapEntries` | src/led_ble/model_db.py:9-83 | no shipped model is shadowed: each is the entry for its own number; `DEFAULT_MODEL` is a key |
| `ModelDb.EffectiveFallback` | src/led_ble/model_db.py:91-93 | `fallback_protocol or ORIGINAL_RGBW` is never empty, and is either the original RGBW protocol or the given fallback |
| `ModelDb.UnknownLedBleModel` | src/led_ble/model_db.py:104-112 | a model with the given number, no names, "Unknown Model", one rule naming the fallback from version 0 |
| `ModelDb.GetModel` | src/led_ble/model_db.py:86-93 | the model returned carries the number asked for and has at least one protocol rule |
| `ModelDb.GetModelCases` | src/led_ble/model_db.py:86-93 | a known number gives its registered entry, whatever the fallback; an unknown one gives the Unknown Model with the fallback, or with the original RGBW protocol when the fallback is `None` or empty |
| `ModelDb.IsKnownModel` | src/led_ble/model_db.py:96-98 | known iff the number is one of the five in the table |
| `ModelDb.GetModelDescription` | src/led_ble/model_db.py:115-117 | "Unknown Model" for unknown numbers, the description of the shipped model with that number otherwise |
| `ModelDb.DefaultProtocolEverywhere` | src/led_ble/model_db.py:40-112 | with no fallback, every model has the single rule (0, original RGBW), so the protocol picked is original RGBW for every model and version |
| `DreamEffects.NatToString` | src/led_ble/led_ble.py:54 | a non-empty string of decimal digits |
| `DreamEffects.ParseNatToString` | src/led_ble/led_ble.py:54 | reading the digits back gives the number |
| `DreamEffects.NatToStringInjective` | src/led_ble/led_ble.py:54 | different numbers render to different strings |
| `DreamEffects.EffectNamesDiffer` | src/led_ble/led_ble.py:54 | different modes have different names |
| `DreamEffects.EffectNameInjective` | src/led_ble/led_ble.py:54 | different modes in 0..254 have different names, so the comprehension loses no entry |
| `DreamEffects.IntToString` | src/led_ble/led_ble.py:54 | Python's `str(n)`: never empty, the decimal digits of a non-negative number, and a leading minus sign exactly for a negative one |
| `DreamEffects.EffectName` | src/led_ble/led_ble.py:54 | every effect name is "Effect " followed by at least one character |
| `DreamEffects.DreamEffectTable` | src/led_ble/led_ble.py:54 | the table holds exactly "Effect 1" .. "Effect 255", each mapped to its mode 0..254 |
| `DreamEffects.IsDream` | src/led_ble/led_ble.py:427-434 | Dream iff the model number is 0x10 or the advertised local name's first five characters are "Dream" |
| `DreamEffects.CurrentEffect` | src/led_ble/led_ble.py:436-446 | a Dream controller at preset 0 in mode 0..254 reports a name the table maps back to that mode; otherwise the effect is reported iff the preset has an `EFFECT_ID_NAME` entry, and is that entry |
| `DreamEffects.EffectToPattern` | src/led_ble/led_ble.py:412-418 | on a Dream controller it succeeds iff the name is in the table, and otherwise fails with "Effect {name} is not valid"; elsewhere it is flux_led's `str_to_val` |
| `DreamEffects.DreamEffectRoundTrip` | src/led_ble/led_ble.py:436-441 | a Dream controller in mode m (0..254, preset 0) reports "Effect m+1", and that name converts back to m |
| `DreamEffects.EffectName255` | src/led_ble/led_ble.py:438-439 | mode 255 is named "Effect 256" |
| `DreamEffects.DreamModeOutsideTable` | src/led_ble/led_ble.py:436-441 | mode 255, which a status frame can carry, is reported as "Effect 256", which `_effect_to_pattern` rejects |
| `DreamEffects.PercentTo255` | src/led_ble/led_ble.py:279-280 | 0..100 scales into 0..255, and 100 scales to 255 |
| `DreamEffects.DreamPresetFrame` | src/led_ble/led_ble.py:277-281 | `9E 00 p s' b' 00 E9` when all three are bytes; the first offending value otherwise; with speed and brightness in 0..100, success depends on the pattern alone |
| `LedBleSession.DecodeStatus` | src/led_ble/led_ble.py:458-470 | every field of a decoded state is a byte |
| `LedBleSession.DecodeStatusRoundTrip` | src/led_ble/led_ble.py:458-470 | decoding reads back each field of a status frame, whatever its first byte and its bytes past 10 |
| `LedBleSession.DecodeStatusIgnoresOuterBytes` | src/led_ble/led_ble.py:458-470 | frames that agree on bytes 1..10 decode to the same state |
| `LedBleSession.RemoveFirst` | src/led_ble/led_ble.py:330-331 | `list.remove` leaves a list without the element unchanged; otherwise it is one shorter and holds the same elements less one copy of the removed one |
| `LedBleSession.RemoveFirstAt` | src/led_ble/led_ble.py:330-331 | removing the first occurrence at k keeps everything before and after it, in order |
| `LedBleSession.RegisterThenUnregister` | src/led_ble/led_ble.py:325-334 | registering a new callback and then unregistering it restores the list |
| `LedBleSession.UnregisterDuplicate` | src/led_ble/led_ble.py:325-334 | registering a callback already in the list and then unregistering it removes the earlier copy, so the callback moves to the end |
| `LedBleSession.FirstPresent` | src/led_ble/led_ble.py:629-639 | a UUID found is one of the candidates and is offered by the services |
| `LedBleSession.Chosen` | src/led_ble/led_ble.py:629-639 | what one direction holds after resolution: a new value is an offered candidate, and with no candidate offered the old value stays |
| `LedBleSession.FirstPresentIsFirst` | src/led_ble/led_ble.py:629-639 | the chosen UUID is offered by the services and precedes every other offered candidate; none is chosen iff none is offered |
| `LedBleSession.LedBle.constructor` | src/led_ble/led_ble.py:59-77 | empty state, no callbacks, no link or characteristics, no protocol, resolve flag clear |
| `LedBleSession.LedBle.FireCallbacks` | src/led_ble/led_ble.py:320-323 | every registered callback is called, in registration order, with the current state |
| `LedBleSession.LedBle.RegisterCallback` | src/led_ble/led_ble.py:325-334 | the callback is appended |
| `LedBleSession.LedBle.UnregisterCallback` | src/led_ble/led_ble.py:330-331 | the first occurrence is removed; a callback no longer registered raises `ValueError` and changes nothing |
| `LedBleSession.LedBle.EnsureConnected` | src/led_ble/led_ble.py:336-383 | a live link only reopens the idle window; otherwise the first of at most two connections whose services offer both characteristics is kept, with notifications started on the read characteristic; a first miss clears the cache and drops that link; a second miss drops that link too and raises `CharacteristicMissingError`, leaving the link field as it was |
| `LedBleSession.LedBle.ResolveFromStatus` | src/led_ble/led_ble.py:480-483 | the resolve flag is set, the model kept, and the protocol the model picks for the version becomes the protocol, or raises if flux_led lacks it |
| `LedBleSession.LedBle.NotificationHandler` | src/led_ble/led_ble.py:448-485 | a 4-byte 0xCC frame sets only `power`, to byte 1 == 0x23, and fires nothing; other frames under 11 bytes change nothing; a full frame replaces the state; only the first full frame sets the model data and protocol (raising, before any callback, for a protocol flux_led lacks); then callbacks fire |
| `LedBleSession.LedBle.SetProtocol` | src/led_ble/led_ble.py:649-653 | a name flux_led knows becomes the protocol; any other raises and changes nothing |
| `LedBleSession.LedBle.ResolveCharacteristics` | src/led_ble/led_ble.py:629-639 | each side takes the first candidate the services offer, or keeps its old value if none is offered; true iff both sides are set |
| `LedBleSession.LedBle.ExecuteCommandLocked` | src/led_ble/led_ble.py:619-627 | a missing read, then a missing write, characteristic raises with nothing written; otherwise the frames are written in order, up to the failing write |
| `LedBleSession.LedBle.ExecuteDisconnect` | src/led_ble/led_ble.py:523-540 | disconnect is expected; link and both characteristics are cleared; a live link gets stop-notify on the read characteristic (if any) then disconnect |
| `LedBleSession.LedBle.ResetDisconnectTimer` | src/led_ble/led_ble.py:487-494 | the next disconnect is unexpected |
| `LedBleSession.LedBle.SendCommandLocked` | src/led_ble/led_ble.py:543-565 | a Bleak error from a write disconnects and is re-raised, and so does a missing characteristic when `CharacteristicMissingError` is a `BleakError`; any other error is re-raised with the link as it was. The `except BleakDBusError` / `except BleakError` split is the helper predicate `DisconnectsOn`, which this row covers |
| `LedBleSession.LedBle.ResolveProtocol` | src/led_ble/led_ble.py:641-647 | nothing once resolved; before that, one attempt at sending `EF 01 77` |
| `LedBleSession.LedBle.Update` | src/led_ble/led_ble.py:148-155 | one attempt at sending the protocol's state query; state unchanged |
| `LedBleSession.LedBle.TurnOn` | src/led_ble/led_ble.py:157-163 | after a successful send, power is on and callbacks fire; on failure state and callbacks are untouched |
| `LedBleSession.LedBle.TurnOff` | src/led_ble/led_ble.py:165-171 | as `TurnOn`, with power off |
| `LedBleSession.LedBle.SetRgb` | src/led_ble/led_ble.py:186-215 | a component outside 0..255 raises before anything changes; otherwise it sends the brightness-adjusted colour, then records that colour with white 0 and preset 1 on a Dream controller |
| `LedBleSession.LedBle.SetRgbw` | src/led_ble/led_ble.py:217-246 | a component outside 0..255 raises before anything changes; otherwise it sends the brightness-adjusted levels but records the colour and white as given |
| `LedBleSession.LedBle.SetWhite` | src/led_ble/led_ble.py:248-271 | a level outside 0..255 raises before anything changes; otherwise it sends white only and records black with that white |
| `LedBleSession.LedBle.GeneratePresetPattern` | src/led_ble/led_ble.py:273-286 | Dream: the seven-byte frame, succeeding iff its bytes fit; others: succeeds iff flux_led accepts the pattern and brightness is in 1..100, with the pattern checked first |
| `LedBleSession.LedBle.AsyncSetPresetPattern` | src/led_ble/led_ble.py:288-298 | a generation error changes nothing; after a successful send a Dream controller records mode = effect under preset 0, others record preset = effect, and callbacks fire |
| `LedBleSession.LedBle.AsyncSetEffect` | src/led_ble/led_ble.py:300-306 | an unknown effect name raises and changes nothing; otherwise it behaves as `AsyncSetPresetPattern` for the converted pattern |
| `LedBleSession.LedBle.EffectPattern` | src/led_ble/led_ble.py:412-418 | a Dream controller accepts exactly the `DREAM_EFFECTS` names, giving their mode; any other accepts exactly what `str_to_val` accepts, giving its value; a rejection is a `ValueError` |
| `LedBleSession.LedBle.Stop` | src/led_ble/led_ble.py:308-311 | as `ExecuteDisconnect` |
| `LedBleSession.LedBle.Effect` | src/led_ble/led_ble.py:436-446 | on a Dream controller running a table mode, the reported effect converts back through `_effect_to_pattern` to that mode; on any other, the effect is reported iff the preset pattern has an `EFFECT_ID_NAME` entry, and is that entry |
| `LedBleSession.LedBle.LinkLost` | src/led_ble/led_ble.py:496-507 | the transport dropping the link leaves a handle that is no longer connected, and no handle where there was none |

The session keeps one invariant, `Valid()`: model data exists exactly when the resolve flag is set, and a protocol is set only after that, and only one that flux_led knows.

## Left out

- Floating-point colour maths is given as functions the session is constructed with: `_calculate_brightness` and `rgbw_brightness`. The same applies to the HSV scaling in `construct_levels_change` and the hue-byte choice in `construct_custom_effect`, which take their already scaled integers as inputs.
- `set_brightness` and the `brightness` and `rgb_unscaled` properties are left out: they are built on that floating-point maths.
- flux_led is modelled through constructor parameters:
  - its protocol classes are an `encode` function and a set of known protocol names. `encode` is total: a `construct_*` method that raises on the values it is given (as `ProtocolFairy` does for packed values outside 0..65535, `protocol.py:61-66`) is not modelled at the session level;
  - `PresetPattern.valid_or_raise` and `str_to_val` are functions;
  - `EFFECT_ID_NAME` is a map.
  
  `effect_list` (which returns flux_led's `EFFECT_LIST`) is not modelled.
- The frames `encode` returns are the list `_send_command` ends up with, after it has wrapped a single frame into a list.
- The BLE transport is abstract: `establish_connection`, `start_notify`, `clear_cache` and `disconnect` are events in the `wire` log, and the services a connection offers are parameters. A failing `establish_connection` is not modelled.
- `LedBleSession.LedBle.EnsureConnected`: stops after subscribing to notifications; the `_resolve_protocol` call that follows is `ResolveProtocol`. The two connection attempts are written out in sequence rather than as the source's `for attempt in range(2)` loop.
- `_send_command` is the sequence `EnsureConnected`, `ResolveProtocol`, `SendCommandLocked`; it is not a method of its own. The setters and `Update` therefore start from a live link, `client == Some(Client(true))`, which is the state `EnsureConnected` leaves on success. Reconnecting a dropped link before the write is `EnsureConnected` run first, not part of the setter's contract. Their `protocol.Some?` requirement mirrors each setter's own `assert self._protocol is not None` (`led_ble.py:160`, `168`, `197`, `227`, `253`, `285`). The `AssertionError` that assert raises on an unresolved session is not modelled. `ResolveProtocol` only sends the query; the protocol is set when the answer arrives through `NotificationHandler`.
- `LedBleSession.LedBle.TurnOn`: requires a live link and a protocol, as above.
- `LedBleSession.LedBle.TurnOff`: requires a live link and a protocol, as above.
- `LedBleSession.LedBle.SetRgb`: requires a live link and a protocol on the path past the range check, as above.
- `LedBleSession.LedBle.SetRgbw`: requires a live link and a protocol on the path past the range check, as above.
- `LedBleSession.LedBle.SetWhite`: requires a live link and a protocol on the path past the range check, as above.
- `LedBleSession.LedBle.AsyncSetPresetPattern`: requires a live link on the path that sends, and a protocol where a non-Dream frame is built, as above.
- `LedBleSession.LedBle.AsyncSetEffect`: requires the same as `AsyncSetPresetPattern` for the converted pattern.
- `LedBleSession.LedBle.Update`: requires a protocol. `update` itself calls `_resolve_protocol` first; the unresolved case is `ResolveProtocol` followed by `NotificationHandler`.
- `LedBleSession.LedBle.ResolveProtocol`: does not model the ten-second wait for the answering notification.
- The retry decorator `retry_bluetooth_connection_error` lives in bleak_retry_connector and is not part of this model. Each send is one attempt.
- `LedBleSession.LedBle.SendCommandLocked`: does not model the back-off sleep before a D-Bus error's disconnect.
- A `stop_notify` that raises a `BleakError` is swallowed (`led_ble.py:536`). A failing `stop_notify` is not modelled: the model always records it as attempted and then disconnects.
- Asyncio is not modelled: the connect and operation locks, the idle timer, `create_task` and `_execute_timed_disconnect`. The model is sequential. `_disconnected` only logs; the link loss it is told about is `LinkLost`.
- A callback that registers or unregisters callbacks while `_fire_callbacks` is iterating is not modelled: callbacks are recorded, not run.
- `src/led_ble/exceptions.py` is not part of this model. `led_ble.py:34` imports `CharacteristicMissingError` from it (not the class of the same name in `const.py:10`), and this model leaves its base class open: the constructor flag `charMissingIsBleak` chooses whether it is a `BleakError`; when it is, `_send_command_locked` disconnects on a missing characteristic as it does on any Bleak error.
- `LEDBLEState` is the eight-field record that `led_ble.py:468-470` builds, in that positional order. `power` defaults to `False` and `rgb` to black (`models.py:9-10`); the initial state takes every other field as 0.
- Error messages raised inside flux_led, and the text of the range-check `ValueError`s, are reduced to a `ValueErrorReason`.
- Logging, `name`, `address`, `rssi`, `set_ble_device_and_advertisement_data`, `examples/run.py` and the `led_ble_hf` package are not modelled.
- `ConstructMessage` is the value form that every frame constructor uses. Each of them hands `construct_message` a freshly built buffer that nothing else refers to. `ConstructMessageInPlace` models the in-place append itself.
