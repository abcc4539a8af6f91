/** The registry of known LED controller models (src/led_ble/model_db.py): a
    frozen table of models, each with an ordered list of minimum-version
    protocol rules, and lookups that fall back to a synthesised "unknown"
    model. */
module ModelDb {
  import opened Wrappers

  /** Protocol names are the strings flux_led keys its protocol classes by. */
  type ProtocolName = string

  const PROTOCOL_LEDENET_ORIGINAL_RGBW: ProtocolName := "LEDENET_ORIGINAL_RGBW"

  /** The colour modes flux_led defines (`COLOR_MODE_RGBW`, and the members of
      `COLOR_MODES_RGB_W`). */
  datatype ColorMode = Rgb | Rgbw | Dim

  const COLOR_MODES_RGB_W: set<ColorMode> := {Rgb, Dim}

  /** flux_led's `MinVersionProtocol`: use `protocol` from firmware `minVersion` on. */
  datatype MinVersionProtocol = MinVersionProtocol(minVersion: int, protocol: ProtocolName)

  /** Index of the first rule, at or after `from`, whose minimum version is at
      most `version`. */
  function FirstMatchFrom(rules: seq<MinVersionProtocol>, version: int, from: nat): (r: Option<nat>)
    decreases |rules| - from
  {
    if from >= |rules| then None
    else if rules[from].minVersion <= version then Some(from)
    else FirstMatchFrom(rules, version, from + 1)
  }

  datatype LedBleModel = LedBleModel(
    modelNum: int,                  // the model number, byte 1 of a status frame
    models: seq<string>,            // model names seen in discovery
    description: string,
    protocols: seq<MinVersionProtocol>,  // ordered highest version to lowest
    colorModes: set<ColorMode>)
  {
    /** The protocol `protocol_for_version_num` picks: the first rule in list
        order that the version reaches, else the last rule's. */
    function ProtocolFor(version: int): (p: ProtocolName)
      requires |protocols| > 0
      ensures exists k :: 0 <= k < |protocols| && p == protocols[k].protocol
    {
      FirstMatchFromIsFirst(protocols, version, 0);
      match FirstMatchFrom(protocols, version, 0)
      case Some(k) => protocols[k].protocol
      case None => protocols[|protocols| - 1].protocol
    }

    /** `protocol_for_version_num`: start from the last rule, scan in order and
        stop at the first rule whose minimum version `version` reaches. */
    method ProtocolForVersionNum(version: int) returns (protocol: ProtocolName)
      requires |protocols| > 0
      ensures protocol == ProtocolFor(version)
      ensures (exists k :: 0 <= k < |protocols| && protocols[k].minVersion <= version) ==>
                exists k :: 0 <= k < |protocols| && protocols[k].minVersion <= version &&
                  protocol == protocols[k].protocol &&
                  forall j :: 0 <= j < k ==> protocols[j].minVersion > version
      ensures (forall k :: 0 <= k < |protocols| ==> protocols[k].minVersion > version) ==>
                protocol == protocols[|protocols| - 1].protocol
    {
      protocol := protocols[|protocols| - 1].protocol;
      var i := 0;
      while i < |protocols|
        invariant 0 <= i <= |protocols|
        invariant forall j :: 0 <= j < i ==> protocols[j].minVersion > version
        invariant FirstMatchFrom(protocols, version, i) == FirstMatchFrom(protocols, version, 0)
        invariant protocol == protocols[|protocols| - 1].protocol
      {
        if version >= protocols[i].minVersion {
          protocol := protocols[i].protocol;
          break;
        }
        i := i + 1;
      }
    }
  }

  /** The first-match rule `ProtocolFor` follows, stated without the helper:
      either some rule matches and the first such rule decides, or none does
      and the last rule decides. */
  lemma {:induction false} FirstMatchFromIsFirst(rules: seq<MinVersionProtocol>, version: int, from: nat)
    requires from <= |rules|
    ensures FirstMatchFrom(rules, version, from).Some? ==>
              var k := FirstMatchFrom(rules, version, from).value;
              from <= k < |rules| && rules[k].minVersion <= version &&
              forall j :: from <= j < k ==> rules[j].minVersion > version
    ensures FirstMatchFrom(rules, version, from).None? <==>
              forall j :: from <= j < |rules| ==> rules[j].minVersion > version
    decreases |rules| - from
  {
    if from < |rules| && rules[from].minVersion > version {
      FirstMatchFromIsFirst(rules, version, from + 1);
    }
  }

  const DEFAULT_MODEL: int := 0xE3

  /** `MODELS`: every shipped model speaks the original LEDENET RGBW protocol
      from firmware version 0 on. */
  const MODELS: seq<LedBleModel> := [
    LedBleModel(0x04, ["Triones:C10511000166"], "Controller RGB&W",
                [MinVersionProtocol(0, PROTOCOL_LEDENET_ORIGINAL_RGBW)], {Rgbw}),
    LedBleModel(0x10, ["Dream~MAC"], "Controller Dream",
                [MinVersionProtocol(0, PROTOCOL_LEDENET_ORIGINAL_RGBW)], COLOR_MODES_RGB_W),
    LedBleModel(0x15, ["LEDBlue-C2AF4BD5"], "Bulb RGB/W",
                [MinVersionProtocol(0, PROTOCOL_LEDENET_ORIGINAL_RGBW)], COLOR_MODES_RGB_W),
    LedBleModel(0x54, ["LEDBLE-DE1254F9"], "Controller RGB&W",
                [MinVersionProtocol(0, PROTOCOL_LEDENET_ORIGINAL_RGBW)], COLOR_MODES_RGB_W),
    LedBleModel(0xE3, ["QHM-095F"], "Controller RGB/W",
                [MinVersionProtocol(0, PROTOCOL_LEDENET_ORIGINAL_RGBW)], COLOR_MODES_RGB_W)
  ]

  /** The dict comprehension `{model.model_num: model for model in models}`:
      entries are inserted in list order, so a later model replaces an earlier
      one with the same number. Its keys are exactly the listed numbers, and
      every key maps to a listed model carrying that number. */
  function BuildModelMap(models: seq<LedBleModel>): (r: map<int, LedBleModel>)
    ensures r.Keys == set i | 0 <= i < |models| :: models[i].modelNum
    ensures forall n :: n in r ==> r[n].modelNum == n && r[n] in models
  {
    if models == [] then map[]
    else
      var init := models[..|models| - 1];
      var last := models[|models| - 1];
      assert forall i :: 0 <= i < |init| ==> init[i] == models[i];
      assert (set i | 0 <= i < |models| :: models[i].modelNum)
          == (set i | 0 <= i < |init| :: init[i].modelNum) + {last.modelNum};
      BuildModelMap(init)[last.modelNum := last]
  }

  /** The last listed model with a given number is the one the comprehension
      keeps. */
  lemma {:induction false} BuildModelMapLastWins(models: seq<LedBleModel>, i: nat)
    requires i < |models|
    requires forall j :: i < j < |models| ==> models[j].modelNum != models[i].modelNum
    ensures BuildModelMap(models)[models[i].modelNum] == models[i]
  {
    if i < |models| - 1 {
      var init := models[..|models| - 1];
      assert init[i] == models[i];
      assert forall j :: i < j < |init| ==> init[j] == models[j];
      BuildModelMapLastWins(init, i);
    }
  }

  /** `MODEL_MAP`: keyed by the five shipped model numbers, each mapped to the
      shipped model with that number, whose only rule is the original RGBW
      protocol from version 0. */
  function ModelMap(): (r: map<int, LedBleModel>)
    ensures r.Keys == {0x04, 0x10, 0x15, 0x54, 0xE3}
    ensures forall n :: n in r ==> r[n].modelNum == n && r[n] in MODELS
    ensures forall n :: n in r ==> r[n].protocols == [MinVersionProtocol(0, PROTOCOL_LEDENET_ORIGINAL_RGBW)]
  {
    assert MODELS[0].modelNum == 0x04 && MODELS[1].modelNum == 0x10 && MODELS[2].modelNum == 0x15;
    assert MODELS[3].modelNum == 0x54 && MODELS[4].modelNum == 0xE3;
    assert forall m :: m in MODELS ==> m.protocols == [MinVersionProtocol(0, PROTOCOL_LEDENET_ORIGINAL_RGBW)];
    BuildModelMap(MODELS)
  }

  /** No shipped model shadows another: each is the `MODEL_MAP` entry for
      its number, and the default model number is a key. */
  lemma ModelMapEntries()
    ensures forall i :: 0 <= i < |MODELS| ==> ModelMap()[MODELS[i].modelNum] == MODELS[i]
    ensures DEFAULT_MODEL in ModelMap()
  {
    forall i | 0 <= i < |MODELS|
      ensures ModelMap()[MODELS[i].modelNum] == MODELS[i]
    {
      BuildModelMapLastWins(MODELS, i);
    }
  }

  const UNKNOWN_MODEL: string := "Unknown Model"

  /** `_unknown_ledble_model`: a model for a number the table does not know. */
  function UnknownLedBleModel(modelNum: int, fallbackProtocol: ProtocolName): (m: LedBleModel)
    ensures m.modelNum == modelNum && m.models == [] && m.description == UNKNOWN_MODEL
    ensures m.protocols == [MinVersionProtocol(0, fallbackProtocol)]
  {
    LedBleModel(modelNum, [], UNKNOWN_MODEL, [MinVersionProtocol(0, fallbackProtocol)], COLOR_MODES_RGB_W)
  }

  /** `fallback_protocol or PROTOCOL_LEDENET_ORIGINAL_RGBW`: Python's `or`
      passes over both `None` and the empty string, so the result is never
      empty. */
  function EffectiveFallback(fallbackProtocol: Option<ProtocolName>): (p: ProtocolName)
    ensures p != ""
    ensures p == PROTOCOL_LEDENET_ORIGINAL_RGBW || fallbackProtocol == Some(p)
  {
    if fallbackProtocol.Some? && fallbackProtocol.value != "" then fallbackProtocol.value
    else PROTOCOL_LEDENET_ORIGINAL_RGBW
  }

  /** `get_model`. */
  function GetModel(modelNum: int, fallbackProtocol: Option<ProtocolName>): (m: LedBleModel)
    ensures m.modelNum == modelNum
    ensures |m.protocols| > 0
  {
    if modelNum in ModelMap() then ModelMap()[modelNum]
    else UnknownLedBleModel(modelNum, EffectiveFallback(fallbackProtocol))
  }

  /** `is_known_model`: a model is known exactly when its number is one of the
      five in the table. */
  function IsKnownModel(modelNum: int): (known: bool)
    ensures known <==> modelNum in {0x04, 0x10, 0x15, 0x54, 0xE3}
  {
    modelNum in ModelMap()
  }

  /** `get_model_description`: "Unknown Model" for unknown numbers, the
      description of the shipped model with that number otherwise. */
  function GetModelDescription(modelNum: int): (d: string)
    ensures !IsKnownModel(modelNum) ==> d == UNKNOWN_MODEL
    ensures IsKnownModel(modelNum) ==>
              exists i :: 0 <= i < |MODELS| && MODELS[i].modelNum == modelNum && d == MODELS[i].description
  {
    ModelMapEntries();
    GetModel(modelNum, None).description
  }

  /** For a known number, `get_model` returns the registered entry, whatever
      fallback is passed; for an unknown one, a fresh "Unknown Model" whose only
      rule (from version 0) names the fallback, or the original RGBW protocol
      when the fallback is `None` or empty. */
  lemma GetModelCases(modelNum: int, fallbackProtocol: Option<ProtocolName>)
    ensures IsKnownModel(modelNum) ==>
              GetModel(modelNum, fallbackProtocol) in MODELS &&
              GetModel(modelNum, fallbackProtocol) == ModelMap()[modelNum]
    ensures !IsKnownModel(modelNum) ==>
              var m := GetModel(modelNum, fallbackProtocol);
              m.models == [] && m.description == UNKNOWN_MODEL &&
              m.protocols == [MinVersionProtocol(0,
                if fallbackProtocol.Some? && fallbackProtocol.value != "" then fallbackProtocol.value
                else PROTOCOL_LEDENET_ORIGINAL_RGBW)]
  {
  }

  /** Every model `get_model` can return when no fallback is given has the single
      rule "original RGBW from version 0", so the protocol it picks is the
      original RGBW protocol whatever the model and version. */
  lemma DefaultProtocolEverywhere(modelNum: int, version: int)
    ensures GetModel(modelNum, None).protocols == [MinVersionProtocol(0, PROTOCOL_LEDENET_ORIGINAL_RGBW)]
    ensures GetModel(modelNum, None).ProtocolFor(version) == PROTOCOL_LEDENET_ORIGINAL_RGBW
  {
    var m := GetModel(modelNum, None);
    FirstMatchFromIsFirst(m.protocols, version, 0);
  }
}
